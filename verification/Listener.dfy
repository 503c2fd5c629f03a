/** Historical reconciliation: the paging loop over block ranges, for every provider behaviour. */
module Listener {
  import opened Evm
  import opened Pipeline

  const BLOCK_STEP: nat := 10000
  const UINT64: nat := 0x1_0000000000000000

  function Add64(a: nat, b: nat): nat { (a + b) % UINT64 }

  function Sub64(a: nat, b: nat): nat { (a - b) % UINT64 }

  /** The provider's answer to one request: the logs of the range, "range too large", an advised range,
      another failure, or the context is cancelled before it answers. */
  datatype Answer = Accept | TooLarge | Advise(start: Uint64, end: Uint64) | Fail | Cancel

  /** One reconciliation: the matching logs of the chain in order, the head, the resume point, and the
      provider, whose answer may depend on the attempt and the range. */
  datatype Job = Job(logs: seq<Event>, current: Uint64, lastBlock: Uint64, lastIndex: nat,
                     answer: (nat, nat, nat) -> Answer)

  /** Where the loop stands; `fetched` are the ranges the provider answered with logs. */
  datatype Paging = Paging(start: nat, end: nat, attempt: nat, fetched: seq<(nat, nat)>, sent: seq<Event>)

  function Fetch(logs: seq<Event>, lo: nat, hi: nat): seq<Event> {
    if logs == [] then []
    else
      var last := logs[|logs| - 1];
      Fetch(logs[..|logs| - 1], lo, hi) + if lo <= last.blockNumber <= hi then [last] else []
  }

  /** The events after the resume point. */
  function Unseen(j: Job, evs: seq<Event>): seq<Event> {
    if evs == [] then []
    else
      var last := evs[|evs| - 1];
      Unseen(j, evs[..|evs| - 1])
        + if last.blockNumber == j.lastBlock && last.logIndex <= j.lastIndex then [] else [last]
  }

  function First(j: Job): Paging {
    Paging(j.lastBlock, Add64(j.lastBlock, BLOCK_STEP), 0, [], [])
  }

  function Clamp(j: Job, p: Paging): Paging {
    if p.end > j.current then p.(end := j.current) else p
  }

  function Halved(start: nat, end: nat): nat {
    Sub64(end, Sub64(end, start) / 2)
  }

  /** The loop body after the provider has answered the clamped request. */
  function Answered(j: Job, p: Paging, a: Answer): Paging {
    var q := p.(attempt := p.attempt + 1);
    match a
    case Accept => q.(start := Add64(p.end, 1), end := Add64(p.end, BLOCK_STEP),
                      fetched := p.fetched + [(p.start, p.end)],
                      sent := p.sent + Unseen(j, Fetch(j.logs, p.start, p.end)))
    case TooLarge => q.(end := Halved(p.start, p.end))
    case Advise(s, e) => q.(start := s, end := e)
    case _ => q
  }

  function AnswerTo(j: Job, p: Paging): Answer {
    j.answer(p.attempt, p.start, p.end)
  }

  /** The loop for at most n iterations. */
  function Iterate(j: Job, p: Paging, n: nat): Paging
    decreases n
  {
    if n == 0 || j.current <= p.start then p
    else
      var q := Clamp(j, p);
      if AnswerTo(j, q).Cancel? then p else Iterate(j, Answered(j, q, AnswerTo(j, q)), n - 1)
  }

  /** The loop as the source runs it, with the context cancelled after `patience` iterations at the latest. */
  method ReconcileBlockRange(j: Job, patience: nat) returns (result: Paging)
    ensures result == Iterate(j, First(j), patience)
  {
    var startBlock: nat := j.lastBlock;
    var endBlock: nat := Add64(startBlock, BLOCK_STEP);
    var attempt: nat, fetched: seq<(nat, nat)>, historical: seq<Event> := 0, [], [];
    while j.current > startBlock && attempt < patience
      invariant attempt <= patience
      invariant Iterate(j, Paging(startBlock, endBlock, attempt, fetched, historical), patience - attempt)
             == Iterate(j, First(j), patience)
      decreases patience - attempt
    {
      ghost var p := Paging(startBlock, endBlock, attempt, fetched, historical);
      var toBlock := if endBlock > j.current then j.current else endBlock;
      match j.answer(attempt, startBlock, toBlock) {
      case Cancel => return Paging(startBlock, endBlock, attempt, fetched, historical);
      case TooLarge => endBlock := Halved(startBlock, toBlock);
      case Advise(s, e) => startBlock, endBlock := s, e;
      case Fail => endBlock := toBlock;
      case Accept =>
        historical := SendUnseen(j, Fetch(j.logs, startBlock, toBlock), historical);
        fetched := fetched + [(startBlock, toBlock)];
        startBlock, endBlock := Add64(toBlock, 1), Add64(toBlock, BLOCK_STEP);
      }
      attempt := attempt + 1;
      assert Paging(startBlock, endBlock, attempt, fetched, historical)
        == Answered(j, Clamp(j, p), AnswerTo(j, Clamp(j, p)));
    }
    return Paging(startBlock, endBlock, attempt, fetched, historical);
  }

  method SendUnseen(j: Job, logs: seq<Event>, channel: seq<Event>) returns (sent: seq<Event>)
    ensures sent == channel + Unseen(j, logs)
  {
    sent := channel;
    for i := 0 to |logs|
      invariant sent == channel + Unseen(j, logs[..i])
    {
      assert logs[..i + 1][..i] == logs[..i];
      if logs[i].blockNumber == j.lastBlock && logs[i].logIndex <= j.lastIndex { continue; }
      sent := sent + [logs[i]];
    }
    assert logs[..|logs|] == logs;
  }

  // ---- coverage ----

  /** Head heights far below the 64-bit limit, so that block arithmetic does not wrap. */
  ghost predicate NoWrap(j: Job) {
    j.current + BLOCK_STEP + 1 < UINT64
  }

  /** Advised ranges keep the start, shrink the end and do not end before the start. */
  ghost predicate WellBehaved(j: Job) {
    forall n: nat, s: nat, e: nat :: s <= e && j.answer(n, s, e).Advise? ==>
      j.answer(n, s, e).start == s && s <= j.answer(n, s, e).end < e
  }

  /** The ranges follow each other without gap or overlap from `lo` up to just before `next`, none beyond `head`. */
  ghost predicate Contiguous(ranges: seq<(nat, nat)>, lo: nat, next: nat, head: nat) {
    && (forall i :: 0 <= i < |ranges| ==> ranges[i].0 <= ranges[i].1 <= head)
    && (forall i :: 0 <= i < |ranges| - 1 ==> ranges[i + 1].0 == ranges[i].1 + 1)
    && (if ranges == [] then next == lo else ranges[0].0 == lo && next == ranges[|ranges| - 1].1 + 1)
  }

  /** The logs of blocks [from, upto) that come after the resume point, in chain order. */
  function Expected(j: Job, upto: nat): seq<Event> {
    if upto <= j.lastBlock then [] else Unseen(j, Fetch(j.logs, j.lastBlock, upto - 1))
  }

  ghost predicate PagingInv(j: Job, p: Paging) {
    && j.lastBlock <= p.start
    && (p.start < j.current ==> p.start <= p.end)
    && (j.lastBlock <= j.current ==> p.start <= j.current + 1)
    && Contiguous(p.fetched, j.lastBlock, p.start, j.current)
    && p.sent == Expected(j, p.start)
  }

  /** Chain order of logs. */
  ghost predicate Ordered(logs: seq<Event>) {
    forall i, k :: 0 <= i < k < |logs| ==>
      logs[i].blockNumber < logs[k].blockNumber
      || (logs[i].blockNumber == logs[k].blockNumber && logs[i].logIndex < logs[k].logIndex)
  }

  lemma {:induction false} FetchEmpty(logs: seq<Event>, lo: nat, hi: nat)
    requires forall i :: 0 <= i < |logs| ==> !(lo <= logs[i].blockNumber <= hi)
    ensures Fetch(logs, lo, hi) == []
  {
    if logs != [] {
      FetchEmpty(logs[..|logs| - 1], lo, hi);
    }
  }

  /** Fetching two adjacent ranges one after the other is fetching their union. */
  lemma {:induction false} FetchSplit(logs: seq<Event>, lo: nat, mid: nat, hi: nat)
    requires Ordered(logs) && lo <= mid <= hi
    ensures Fetch(logs, lo, hi) == Fetch(logs, lo, mid) + Fetch(logs, mid + 1, hi)
  {
    if logs != [] {
      var init, last := logs[..|logs| - 1], logs[|logs| - 1];
      var a, b := Fetch(init, lo, mid), Fetch(init, mid + 1, hi);
      assert Fetch(init, lo, hi) == a + b by { FetchSplit(init, lo, mid, hi); }
      if lo <= last.blockNumber <= mid {
        assert b == [] by { FetchEmpty(init, mid + 1, hi); }
        assert (a + b) + [last] == (a + [last]) + b;
      } else {
        assert (a + b) + [last] == a + (b + [last]) && b + [] == b && a + [] == a;
      }
    }
  }

  lemma {:induction false} UnseenConcat(j: Job, a: seq<Event>, b: seq<Event>)
    ensures Unseen(j, a + b) == Unseen(j, a) + Unseen(j, b)
  {
    if b == [] {
      assert a + b == a;
    } else {
      assert (a + b)[..|a + b| - 1] == a + b[..|b| - 1];
      UnseenConcat(j, a, b[..|b| - 1]);
    }
  }

  lemma AcceptExtends(j: Job, start: nat, end: nat)
    requires Ordered(j.logs) && j.lastBlock <= start <= end
    ensures Expected(j, start) + Unseen(j, Fetch(j.logs, start, end)) == Expected(j, end + 1)
  {
    if start == j.lastBlock {
      assert Expected(j, start) == [];
    } else {
      var before, page := Fetch(j.logs, j.lastBlock, start - 1), Fetch(j.logs, start, end);
      assert Fetch(j.logs, j.lastBlock, end) == before + page by { FetchSplit(j.logs, j.lastBlock, start - 1, end); }
      UnseenConcat(j, before, page);
      assert Expected(j, end + 1) == Unseen(j, before + page);
    }
  }

  /** Below the 64-bit limit the block arithmetic is the plain one. */
  lemma PlainArithmetic(a: nat, b: nat)
    requires a < UINT64
    ensures a + b < UINT64 ==> Add64(a, b) == a + b
    ensures b <= a ==> Sub64(a, b) == a - b
  {
  }

  lemma PlainAfter(j: Job, q: Paging)
    requires NoWrap(j) && q.start <= q.end <= j.current
    ensures Answered(j, q, Accept).start == q.end + 1 && Answered(j, q, Accept).end == q.end + BLOCK_STEP
    ensures q.start <= Answered(j, q, TooLarge).end == q.end - (q.end - q.start) / 2 <= q.end
  {
    PlainArithmetic(q.end, 1);
    PlainArithmetic(q.end, BLOCK_STEP);
    PlainArithmetic(q.end, q.start);
    PlainArithmetic(q.end, (q.end - q.start) / 2);
  }

  lemma AcceptCovers(j: Job, q: Paging)
    requires NoWrap(j) && Ordered(j.logs) && PagingInv(j, q) && q.start < j.current && q.end <= j.current
    ensures PagingInv(j, Answered(j, q, Accept))
  {
    PlainAfter(j, q);
    AcceptExtends(j, q.start, q.end);
  }

  lemma StepCovers(j: Job, p: Paging)
    requires NoWrap(j) && WellBehaved(j) && Ordered(j.logs) && PagingInv(j, p) && p.start < j.current
    ensures var q := Clamp(j, p);
      !AnswerTo(j, q).Cancel? ==> PagingInv(j, Answered(j, q, AnswerTo(j, q)))
  {
    var q := Clamp(j, p);
    match AnswerTo(j, q)
    case Accept => AcceptCovers(j, q);
    case TooLarge => PlainAfter(j, q);
    case Advise(s, e) => assert s == q.start && q.start <= e < q.end;
    case Fail =>
    case Cancel =>
  }

  lemma {:induction false} IterateCovers(j: Job, p: Paging, n: nat)
    requires NoWrap(j) && WellBehaved(j) && Ordered(j.logs) && PagingInv(j, p)
    ensures PagingInv(j, Iterate(j, p, n))
    decreases n
  {
    if n > 0 && p.start < j.current {
      var q := Clamp(j, p);
      StepCovers(j, p);
      if !AnswerTo(j, q).Cancel? {
        IterateCovers(j, Answered(j, q, AnswerTo(j, q)), n - 1);
      }
    }
  }

  lemma FirstCovers(j: Job)
    requires NoWrap(j)
    ensures PagingInv(j, First(j))
  {
  }

  /** Historical coverage. At any moment, however the provider behaves and wherever the loop is cut off: the
      ranges fetched are contiguous and disjoint from `lastBlock` on and do not pass the head; what was sent is
      exactly, in order and once each, the logs of blocks [lastBlock, start) after the resume point; and a loop
      that was not cut off ends with start at the head or one past it. */
  lemma Coverage(j: Job, n: nat)
    requires NoWrap(j) && WellBehaved(j) && Ordered(j.logs)
    ensures var p := Iterate(j, First(j), n);
      && Contiguous(p.fetched, j.lastBlock, p.start, j.current)
      && p.sent == Expected(j, p.start)
      && (j.lastBlock <= j.current <= p.start ==> p.start == j.current || p.start == j.current + 1)
  {
    FirstCovers(j);
    IterateCovers(j, First(j), n);
  }

  /** The head block itself is among the fetched ones exactly when the loop ends one past it. */
  lemma HeadFetchedIff(j: Job, n: nat)
    requires NoWrap(j) && WellBehaved(j) && Ordered(j.logs) && j.lastBlock <= j.current
    ensures var p := Iterate(j, First(j), n);
      (exists i :: 0 <= i < |p.fetched| && p.fetched[i].0 <= j.current <= p.fetched[i].1) <==> p.start == j.current + 1
  {
    Coverage(j, n);
    var p := Iterate(j, First(j), n);
    IterateCovers(j, First(j), n) by { FirstCovers(j); }
    if p.start == j.current + 1 {
      assert p.fetched[|p.fetched| - 1].1 == j.current;
    }
    forall i | 0 <= i < |p.fetched| ensures p.fetched[i].1 < p.start {
      RangesBelow(p.fetched, j.lastBlock, p.start, j.current, i);
    }
  }

  lemma {:induction false} RangesBelow(ranges: seq<(nat, nat)>, lo: nat, next: nat, head: nat, i: nat)
    requires Contiguous(ranges, lo, next, head) && i < |ranges|
    ensures ranges[i].1 < next
    decreases |ranges| - i
  {
    if i < |ranges| - 1 {
      RangesBelow(ranges, lo, next, head, i + 1);
    }
  }

  // ---- which range is asked for next ----

  /** The range the loop asks for, clamped to the head. */
  function Request(j: Job, p: Paging): (nat, nat) {
    (Clamp(j, p).start, Clamp(j, p).end)
  }

  /** The first request starts at the resume point and spans a page; after an answer it is: the next page, the smaller
      half, the advised range, the same range. Each is cut off at the head. */
  lemma FirstRequest(j: Job)
    requires NoWrap(j) && j.lastBlock <= j.current
    ensures Request(j, First(j))
      == (j.lastBlock, if j.lastBlock + 10000 > j.current then j.current else j.lastBlock + 10000)
  {
    PlainArithmetic(j.lastBlock, BLOCK_STEP);
  }

  lemma NextRequest(j: Job, p: Paging)
    requires NoWrap(j) && p.start < j.current && p.start <= p.end
    ensures var (start, end) := Request(j, p);
      && start == p.start && end == (if p.end > j.current then j.current else p.end)
      && match j.answer(p.attempt, start, end)
         case Accept =>
           Request(j, Answered(j, Clamp(j, p), Accept))
             == (end + 1, if end + 10000 > j.current then j.current else end + 10000)
         case TooLarge => Request(j, Answered(j, Clamp(j, p), TooLarge)) == (start, end - (end - start) / 2)
         case Advise(s, e) =>
           Request(j, Answered(j, Clamp(j, p), Advise(s, e))) == (s, if e > j.current then j.current else e)
         case Fail => Request(j, Answered(j, Clamp(j, p), Fail)) == (start, end)
         case Cancel => true
  {
    PlainAfter(j, Clamp(j, p));
  }

  /** The loop does go on with the request that the answer asks for, and stops when it is cancelled. */
  lemma GoesOn(j: Job, p: Paging, n: nat)
    requires p.start < j.current && n > 0
    ensures var (start, end) := Request(j, p);
      var answer := j.answer(p.attempt, start, end);
      Iterate(j, p, n) == if answer.Cancel? then p else Iterate(j, Answered(j, Clamp(j, p), answer), n - 1)
  {
  }

  // ---- termination ----

  /** The provider accepts, or at worst transiently fails, every range of at most `width` + 1 blocks. */
  ghost predicate Generous(j: Job, width: nat) {
    forall n: nat, s: nat, e: nat :: s <= e <= s + width ==> j.answer(n, s, e).Accept? || j.answer(n, s, e).Fail?
  }

  /** No transient failures from attempt `calm` on, and no cancellation. */
  ghost predicate CalmFrom(j: Job, calm: nat) {
    && (forall n: nat, s: nat, e: nat :: j.answer(n, s, e).Fail? ==> n < calm)
    && (forall n: nat, s: nat, e: nat :: !j.answer(n, s, e).Cancel?)
  }

  /** Halving strictly shrinks every range wider than two blocks and keeps at least two. */
  lemma Halving(start: nat, end: nat)
    requires start + 2 <= end < UINT64
    ensures start < Halved(start, end) < end
  {
  }

  /** Each iteration moves on: past the range, to a smaller range, or to fewer failures left. */
  lemma NextIsSmaller(j: Job, q: Paging, width: nat, calm: nat)
    requires NoWrap(j) && WellBehaved(j) && Generous(j, width) && width >= 1 && CalmFrom(j, calm)
    requires q.start <= q.end <= j.current
    ensures var next := Answered(j, q, AnswerTo(j, q));
      || (next.start > q.start && next.start <= next.end)
      || (next.start == q.start && q.start <= next.end < q.end)
      || (next.start == q.start && next.end == q.end && next.attempt == q.attempt + 1 <= calm)
    ensures !AnswerTo(j, q).Cancel?
  {
    match AnswerTo(j, q)
    case Accept => PlainAfter(j, q);
    case TooLarge => PlainAfter(j, q); Halving(q.start, q.end);
    case Advise(s, e) => assert s == q.start && q.start <= e < q.end;
    case Fail =>
    case Cancel =>
  }

  /** Reconciliation terminates, by the lexicographic measure of blocks to go, width of the request and
      failures left. */
  lemma {:induction false} Terminates(j: Job, p: Paging, width: nat, calm: nat) returns (n: nat)
    requires NoWrap(j) && WellBehaved(j) && Generous(j, width) && width >= 1 && CalmFrom(j, calm)
    requires p.start < j.current ==> p.start <= p.end
    ensures Iterate(j, p, n).start >= j.current
    decreases if p.start < j.current then j.current - p.start else 0, Clamp(j, p).end,
              if p.attempt < calm then calm - p.attempt else 0
  {
    if p.start >= j.current {
      return 0;
    }
    var q := Clamp(j, p);
    var next := Answered(j, q, AnswerTo(j, q));
    NextIsSmaller(j, q, width, calm);
    var m := Terminates(j, next, width, calm);
    return m + 1;
  }

  /** Hence a whole reconciliation ends by itself and delivers everything below its end. */
  lemma ReconciliationCompletes(j: Job, width: nat, calm: nat) returns (n: nat)
    requires NoWrap(j) && WellBehaved(j) && Ordered(j.logs) && Generous(j, width) && width >= 1 && CalmFrom(j, calm)
    requires j.lastBlock <= j.current
    ensures var p := Iterate(j, First(j), n);
      (p.start == j.current || p.start == j.current + 1) && p.sent == Expected(j, p.start)
  {
    FirstCovers(j);
    n := Terminates(j, First(j), width, calm);
    Coverage(j, n);
  }

  // ---- providers with a fixed widest range ----

  /** The provider serves exactly the ranges of at most `width` + 1 blocks and calls all others too large. */
  ghost predicate Capped(j: Job, width: nat) {
    forall n: nat, s: nat, e: nat :: j.answer(n, s, e) == if e <= s + width then Accept else TooLarge
  }

  lemma {:induction false} StuckFrom(j: Job, p: Paging, n: nat)
    requires NoWrap(j) && p.start < j.current && p.start < p.end
    requires forall k: nat, s: nat, e: nat :: s < e ==> j.answer(k, s, e).TooLarge?
    ensures Iterate(j, p, n).start == p.start && Iterate(j, p, n).fetched == p.fetched
    decreases n
  {
    if n > 0 {
      var q := Clamp(j, p);
      PlainAfter(j, q);
      StuckFrom(j, Answered(j, q, TooLarge), n - 1);
    }
  }

  /** A provider that calls every range of two blocks or more too large is never asked for a single block: from
      its very start the loop fetches nothing, however long it runs. */
  lemma StuckAtTwoBlocks(j: Job, n: nat)
    requires NoWrap(j) && j.lastBlock < j.current
    requires forall k: nat, s: nat, e: nat :: s < e ==> j.answer(k, s, e).TooLarge?
    ensures Iterate(j, First(j), n).start == j.lastBlock && Iterate(j, First(j), n).fetched == []
  {
    PlainArithmetic(j.lastBlock, BLOCK_STEP);
    StuckFrom(j, First(j), n);
  }

  /** Exactly when the loop ends with such a provider: when it serves two blocks at once, or there is nothing
      to fetch. */
  lemma EndsIff(j: Job, width: nat)
    requires NoWrap(j) && Capped(j, width)
    ensures (exists n :: Iterate(j, First(j), n).start >= j.current) <==> width >= 1 || j.lastBlock >= j.current
  {
    if j.lastBlock >= j.current {
      assert Iterate(j, First(j), 0).start >= j.current;
    } else if width >= 1 {
      PlainArithmetic(j.lastBlock, BLOCK_STEP);
      var n := Terminates(j, First(j), width, 0);
      assert Iterate(j, First(j), n).start >= j.current;
    } else {
      forall n ensures Iterate(j, First(j), n).start < j.current {
        StuckAtTwoBlocks(j, n);
      }
    }
  }

  // ---- the head block, for a provider that always serves ----

  lemma {:induction false} SmoothPages(j: Job, p: Paging, n: nat)
    requires NoWrap(j) && p.start <= j.current && p.end == p.start + BLOCK_STEP - 1 && n >= j.current - p.start
    requires forall k: nat, s: nat, e: nat :: j.answer(k, s, e).Accept?
    ensures Iterate(j, p, n).start == if (j.current - p.start) % BLOCK_STEP == 0 then j.current else j.current + 1
    decreases n
  {
    if p.start < j.current {
      SmoothStep(j, p, n);
      if p.end < j.current {
        SmoothPages(j, Answered(j, p, Accept), n - 1);
        PageOff(j.current - p.start);
      }
    }
  }

  lemma PageOff(gap: nat)
    requires gap >= BLOCK_STEP
    ensures (gap - BLOCK_STEP) % BLOCK_STEP == gap % BLOCK_STEP
  {
  }

  /** One request that is served: either a whole page or the rest up to the head. */
  lemma SmoothStep(j: Job, p: Paging, n: nat)
    requires NoWrap(j) && p.start < j.current && p.start <= p.end && n > 0
    requires forall k: nat, s: nat, e: nat :: j.answer(k, s, e).Accept?
    ensures p.end < j.current ==>
      var next := Answered(j, p, Accept);
      Iterate(j, p, n) == Iterate(j, next, n - 1) && next.start == p.end + 1 && next.end == p.end + BLOCK_STEP
    ensures p.end >= j.current ==> Iterate(j, p, n).start == j.current + 1
  {
    var q := Clamp(j, p);
    PlainAfter(j, q);
    if p.end >= j.current {
      var next := Answered(j, q, Accept);
      assert Iterate(j, next, n - 1) == next;
    }
  }

  /** Even with a provider that serves every request at once, the head block is not fetched when the resume
      point is the head, or lies a whole number of pages and one block below it; otherwise it is. */
  lemma HeadMissedIff(j: Job, n: nat)
    requires NoWrap(j) && j.lastBlock <= j.current && n > j.current - j.lastBlock
    requires forall k: nat, s: nat, e: nat :: j.answer(k, s, e).Accept?
    ensures Iterate(j, First(j), n).start == j.current <==>
      j.current == j.lastBlock || (j.current - j.lastBlock > 1 && (j.current - j.lastBlock) % BLOCK_STEP == 1)
    ensures Iterate(j, First(j), n).start == j.current || Iterate(j, First(j), n).start == j.current + 1
  {
    if j.lastBlock < j.current {
      PlainArithmetic(j.lastBlock, BLOCK_STEP);
      SmoothStep(j, First(j), n);
      if First(j).end < j.current {
        ManyPages(j, n);
      }
    }
  }

  /** More than one page to go. */
  lemma ManyPages(j: Job, n: nat)
    requires NoWrap(j) && j.lastBlock + BLOCK_STEP < j.current && n > j.current - j.lastBlock
    requires forall k: nat, s: nat, e: nat :: j.answer(k, s, e).Accept?
    ensures Iterate(j, First(j), n).start
         == if (j.current - j.lastBlock) % BLOCK_STEP == 1 then j.current else j.current + 1
  {
    var p := First(j);
    PlainArithmetic(j.lastBlock, BLOCK_STEP);
    SmoothStep(j, p, n);
    SmoothPages(j, Answered(j, p, Accept), n - 1);
    FirstPage(j.current - j.lastBlock);
  }

  lemma FirstPage(gap: nat)
    requires gap > BLOCK_STEP
    ensures (gap - BLOCK_STEP - 1) % BLOCK_STEP == 0 <==> gap % BLOCK_STEP == 1
  {
  }
}
