/** Two ways in which the cursor moves past an undecided event, each as a run: in a life of the daemon a recording fails
    and the next one succeeds; and a live event is recorded before one of the history. */
module CursorGap {
  import opened Evm
  import opened Encoding
  import opened Store
  import opened Checker
  import opened Pipeline
  import opened Service
  import opened Listener
  import opened Replay
  import opened Resume
  import opened AnyOrder
  import S = SimpleSpec

  /** No limits are configured, so that every event is blocked; and no rejection is accepted by the network. */
  function TheEnv(c: Crypto): Env {
    Env(c, Config(map[], map[]), 2)
  }

  function Answering(recordFails: bool): Oracle {
    Oracle(false, NO_FAULTS, NO_FAULTS, false, 0, false, false, recordFails, (n: nat) => [])
  }

  function Refusal(ev: Event, recordFails: bool): Turn {
    Turn(ev, [Receive(ev, false), CheckGlobal(NO_FAULTS), SendReject(false, 0), RecordDecision(recordFails)],
         Answering(recordFails))
  }

  function Refused(s: Sys, ev: Event, recordFails: bool): Sys {
    s.(tables := EventRecorded(s.tables, ToDecisionRow(ev, Failed), recordFails), worker := Idle)
  }

  /** A turn that ends with the row "failed", if the database allows. */
  lemma Refuses(c: Crypto, s: Sys, ev: Event, recordFails: bool)
    requires s.worker.Idle? && Genuine(s.chain, ev) && !HasEvent(s.tables.events, ev.id)
    ensures HandlesOne(Refusal(ev, recordFails).acts, ev, Answering(recordFails))
    ensures RunFrom(TheEnv(c), s, Refusal(ev, recordFails).acts) == Some(Refused(s, ev, recordFails))
  {
    var e, acts := TheEnv(c), Refusal(ev, recordFails).acts;
    RefusalSteps(c, s, ev, recordFails);
    ThreeActs(e, s, acts[0], s.(worker := Checking(ev)), acts[1], s.(worker := Blocked(ev)),
              acts[2], s.(worker := Deciding(ev, Failed)));
    assert acts[..3] == [acts[0], acts[1], acts[2]] && acts[..3] + [acts[3]] == acts;
    RunAppend(e, s, acts[..3], acts[3]);
  }

  lemma RefusalSteps(c: Crypto, s: Sys, ev: Event, recordFails: bool)
    requires s.worker.Idle? && Genuine(s.chain, ev) && !HasEvent(s.tables.events, ev.id)
    ensures var e, acts := TheEnv(c), Refusal(ev, recordFails).acts;
      && Step(e, s, acts[0]) == Some(s.(worker := Checking(ev)))
      && Step(e, s.(worker := Checking(ev)), acts[1]) == Some(s.(worker := Blocked(ev)))
      && Step(e, s.(worker := Blocked(ev)), acts[2]) == Some(s.(worker := Deciding(ev, Failed)))
      && Step(e, s.(worker := Deciding(ev, Failed)), acts[3]) == Some(Refused(s, ev, recordFails))
  {
  }

  // ---- three withdrawals ----

  function EventOf(c: Crypto, n: Uint64): Event
    requires n < 3
  {
    Event(WithdrawalId(c, 9, ZERO, 4, n), 9, ZERO, 4, 5 + n, 0, 0)
  }

  function Logs(c: Crypto): seq<Event> {
    [EventOf(c, 0), EventOf(c, 1), EventOf(c, 2)]
  }

  ghost predicate DifferentIds(c: Crypto) {
    EventOf(c, 0).id != EventOf(c, 1).id && EventOf(c, 0).id != EventOf(c, 2).id && EventOf(c, 1).id != EventOf(c, 2).id
  }

  /** Different nonces give different ids, as long as the three messages do not collide. */
  lemma IdsDiffer(c: Crypto)
    requires CollisionFreeOn(c, {IdBytes(c, 9, ZERO, 4, 0), IdBytes(c, 9, ZERO, 4, 1), IdBytes(c, 9, ZERO, 4, 2)})
    ensures DifferentIds(c)
  {
    if EventOf(c, 0).id == EventOf(c, 1).id { WithdrawalIdInjective(c, 9, ZERO, 4, 0, 9, ZERO, 4, 1); }
    if EventOf(c, 0).id == EventOf(c, 2).id { WithdrawalIdInjective(c, 9, ZERO, 4, 0, 9, ZERO, 4, 2); }
    if EventOf(c, 1).id == EventOf(c, 2).id { WithdrawalIdInjective(c, 9, ZERO, 4, 1, 9, ZERO, 4, 2); }
  }

  lemma LogsAreChainLogs(c: Crypto)
    requires DifferentIds(c)
    ensures ChainLogs(Logs(c))
  {
  }

  function Starting(n: Word): Act {
    Others(1, S.StartWithdraw(9, ZERO, 4, n))
  }

  function Pending(): S.SimpleRequest {
    S.SimpleRequest(9, ZERO, 4, true, false)
  }

  function StartedUpTo(c: Crypto, n: nat): seq<S.Started>
    requires n <= 3
  {
    if n == 0 then [] else StartedUpTo(c, n - 1) + [S.Started(EventOf(c, n - 1).id, 9, ZERO, 4, n - 1)]
  }

  function RequestsUpTo(c: Crypto, n: nat): map<Word, S.SimpleRequest>
    requires n <= 3
  {
    if n == 0 then map[] else RequestsUpTo(c, n - 1)[EventOf(c, n - 1).id := Pending()]
  }

  /** The chain after the first n withdrawals have been started. */
  function ChainUpTo(c: Crypto, n: nat): S.Chain
    requires n <= 3
  {
    S.Chain(RequestsUpTo(c, n), map[], {1}, {2}, StartedUpTo(c, n), [], [], [])
  }

  lemma StartsNext(c: Crypto, n: Uint64)
    requires n < 3 && EventOf(c, n).id !in RequestsUpTo(c, n)
    ensures S.Next(c, ChainUpTo(c, n), 1, S.StartWithdraw(9, ZERO, 4, n)) == ChainUpTo(c, n + 1)
  {
  }

  lemma AllGenuine(c: Crypto, n: Uint64)
    requires n < 3
    ensures Genuine(ChainUpTo(c, 3), EventOf(c, n))
  {
    var started := StartedUpTo(c, 3);
    assert StartedUpTo(c, 1) == [started[0]] && StartedUpTo(c, 2) == [started[0], started[1]];
    assert started[n].id == EventOf(c, n).id && started[n].user == 9 && started[n].token == ZERO &&
      started[n].amount == 4;
  }

  lemma AllStarted(c: Crypto)
    requires DifferentIds(c)
    ensures var s0 := Start(0, {1}, {2});
      RunFrom(TheEnv(c), s0, [Starting(0), Starting(1), Starting(2)]) == Some(s0.(chain := ChainUpTo(c, 3)))
  {
    var e, s0, acts := TheEnv(c), Start(0, {1}, {2}), [Starting(0), Starting(1), Starting(2)];
    assert RequestsUpTo(c, 1) == map[EventOf(c, 0).id := Pending()];
    StartsNext(c, 0);
    StartsNext(c, 1);
    StartsNext(c, 2);
    ThreeActs(e, s0, acts[0], s0.(chain := ChainUpTo(c, 1)), acts[1], s0.(chain := ChainUpTo(c, 2)),
              acts[2], s0.(chain := ChainUpTo(c, 3)));
  }

  // ---- the first event is handled and recorded ----

  function FirstRow(c: Crypto): Tables {
    Tables([], [ToDecisionRow(EventOf(c, 0), Failed)], map[STREAM := Cursor(5, 0)])
  }

  function Before(c: Crypto): Sys {
    Sys(0, ChainUpTo(c, 3), [], FirstRow(c), Idle)
  }

  lemma BeforeIsReached(c: Crypto) returns (acts: seq<Act>)
    requires DifferentIds(c)
    ensures RunFrom(TheEnv(c), Start(0, {1}, {2}), acts) == Some(Before(c))
  {
    var e, s0 := TheEnv(c), Start(0, {1}, {2});
    var s1 := s0.(chain := ChainUpTo(c, 3));
    acts := [Starting(0), Starting(1), Starting(2)];
    AllStarted(c);
    RunConcat(e, s0, acts, Refusal(EventOf(c, 0), false).acts);
    AllGenuine(c, 0);
    Refuses(c, s1, EventOf(c, 0), false);
    assert [] + FirstRow(c).events == FirstRow(c).events && map[][STREAM := Cursor(5, 0)] == FirstRow(c).cursors;
    acts := acts + Refusal(EventOf(c, 0), false).acts;
  }

  lemma BeforeIsSafe(c: Crypto)
    requires DifferentIds(c)
    ensures SafePoint(Logs(c), Cursor(0, 0), FirstRow(c))
  {
    assert FirstRow(c).events[0].withdrawalId == EventOf(c, 0).id;
    assert DecidedIds(FirstRow(c)) == {EventOf(c, 0).id};
    assert Position(FirstRow(c)) == Cursor(5, 0);
  }

  // ---- a life with a gap ----

  /** The head is block 8, and the provider serves everything at once. */
  function Serving(): Session {
    Session(false, 8, (n: nat, s: nat, e: nat) => Accept, 1, 2, (ev: Event) => None)
  }

  lemma Sends(c: Crypto)
    ensures SentEvents(Logs(c), Cursor(5, 0), Serving()) == [EventOf(c, 1), EventOf(c, 2)]
  {
    var logs, j := Logs(c), JobOf(Logs(c), Cursor(5, 0), Serving());
    FetchesAll(c);
    SkipsFirst(c, j);
    assert Clamp(j, First(j)) == Paging(5, 8, 0, [], []);
    assert Iterate(j, First(j), 1) == Iterate(j, Answered(j, Paging(5, 8, 0, [], []), Accept), 0);
  }

  lemma FetchesAll(c: Crypto)
    ensures Fetch(Logs(c), 5, 8) == Logs(c)
  {
    var logs := Logs(c);
    assert logs[..2] == [logs[0], logs[1]] && logs[..2][..1] == [logs[0]];
    assert Fetch([logs[0]], 5, 8) == [logs[0]];
    assert Fetch([logs[0], logs[1]], 5, 8) == [logs[0], logs[1]];
  }

  lemma SkipsFirst(c: Crypto, j: Job)
    requires j.lastBlock == 5 && j.lastIndex == 0
    ensures Unseen(j, Logs(c)) == [EventOf(c, 1), EventOf(c, 2)]
  {
    var logs := Logs(c);
    assert logs[..2] == [logs[0], logs[1]] && logs[..2][..1] == [logs[0]];
    assert Unseen(j, [logs[0]]) == [];
    assert Unseen(j, [logs[0], logs[1]]) == [logs[1]];
  }

  /** The second event is handled and not recorded, the third is recorded. */
  function GapLife(c: Crypto): Life {
    var mid := Refused(Before(c), EventOf(c, 1), true);
    Life(Before(c), [Refusal(EventOf(c, 1), true), Refusal(EventOf(c, 2), false)],
         Refused(mid, EventOf(c, 2), false), Serving())
  }

  lemma GapServes(c: Crypto)
    requires DifferentIds(c)
    ensures Serves(TheEnv(c), GapLife(c).start, GapLife(c).turns, GapLife(c).end)
  {
    var e, s, l := TheEnv(c), Before(c), GapLife(c);
    assert Before(c).tables.events[0].withdrawalId == EventOf(c, 0).id;
    AllGenuine(c, 1);
    AllGenuine(c, 2);
    Refuses(c, s, EventOf(c, 1), true);
    Refuses(c, Refused(s, EventOf(c, 1), true), EventOf(c, 2), false);
    ServesNothing(e, s);
    ServesSnoc(e, s, [], s, l.turns[0], Refused(s, EventOf(c, 1), true));
    assert [] + [l.turns[0]] == [l.turns[0]] && [l.turns[0]] + [l.turns[1]] == l.turns;
    ServesSnoc(e, s, [l.turns[0]], Refused(s, EventOf(c, 1), true), l.turns[1], l.end);
  }

  lemma GapInOrder(c: Crypto)
    ensures EventsOf(GapLife(c).turns) == [EventOf(c, 1), EventOf(c, 2)] && !StoredInOrder(GapLife(c))
  {
    var l := GapLife(c);
    assert Completed(l.turns, l.end) == l.turns;
    assert !Stored(l.turns[0].o) && Stored(l.turns[1].o);
  }

  lemma GapOrigin(c: Crypto)
    ensures Origin(GapLife(c)) == Cursor(5, 0) && Reasonable(Logs(c), Cursor(5, 0), Serving())
  {
  }

  lemma GapLived(c: Crypto)
    requires DifferentIds(c)
    ensures Lived(TheEnv(c), Logs(c), GapLife(c))
  {
    GapServes(c);
    GapInOrder(c);
    GapOrigin(c);
    Sends(c);
  }

  lemma GapEnd(c: Crypto)
    requires DifferentIds(c)
    ensures var t := GapLife(c).end.tables;
      Position(t) == Cursor(7, 0) && !HasEvent(t.events, EventOf(c, 1).id) && GapLife(c).end.worker.Idle?
  {
    assert FirstRow(c).events[0].withdrawalId == EventOf(c, 0).id;
  }

  /** A failed recording followed by a successful one does lose an event: a run of the daemon to a safe resume point,
      and
      from there a life after which the cursor stands behind an event that has no decision row. */
  lemma GapLosesEvent(c: Crypto) returns (acts: seq<Act>, l: Life)
    requires DifferentIds(c)
    ensures RunFrom(TheEnv(c), Start(0, {1}, {2}), acts) == Some(l.start) && ChainLogs(Logs(c))
    ensures SafePoint(Logs(c), Cursor(0, 0), l.start.tables) && Lived(TheEnv(c), Logs(c), l)
    ensures l.end.worker.Idle? && !SafePoint(Logs(c), Cursor(0, 0), l.end.tables)
    ensures Position(l.end.tables) == Cursor(7, 0) && !HasEvent(l.end.tables.events, EventOf(c, 1).id)
  {
    acts := BeforeIsReached(c);
    l := GapLife(c);
    LogsAreChainLogs(c);
    BeforeIsSafe(c);
    GapLived(c);
    GapInOrder(c);
    GapEnd(c);
    LivesKeepSafe(TheEnv(c), Logs(c), Cursor(0, 0), [l], 0);
  }

  // ---- a live event first ----

  function LiveFirst(c: Crypto): Served {
    Served(Before(c), Refusal(EventOf(c, 2), false), Refused(Before(c), EventOf(c, 2), false))
  }

  lemma LiveFirstHappens(c: Crypto)
    requires DifferentIds(c)
    ensures Happened(TheEnv(c), LiveFirst(c)) && Records(LiveFirst(c))
    ensures !DecidedBefore(Logs(c), Cursor(0, 0), Before(c).tables, EventOf(c, 2))
  {
    assert Before(c).tables.events[0].withdrawalId == EventOf(c, 0).id;
    AllGenuine(c, 2);
    Refuses(c, Before(c), EventOf(c, 2), false);
    assert DecidedIds(Before(c).tables) == {EventOf(c, 0).id};
    assert EventOf(c, 1) == Logs(c)[1];
  }

  /** So does a live event that is served before one of the history: from the same resume point, with every lookup and
      recording succeeding. */
  lemma LiveFirstLosesEvent(c: Crypto) returns (acts: seq<Act>, x: Served)
    requires DifferentIds(c)
    ensures RunFrom(TheEnv(c), Start(0, {1}, {2}), acts) == Some(x.start)
    ensures FromSafe(TheEnv(c), Logs(c), Cursor(0, 0), [x]) && !x.turn.o.knownFails && Stored(x.turn.o)
    ensures !SafeAfter(Logs(c), Cursor(0, 0), x)
  {
    acts := BeforeIsReached(c);
    x := LiveFirst(c);
    LogsAreChainLogs(c);
    BeforeIsSafe(c);
    LiveFirstHappens(c);
    assert EventOf(c, 2) == Logs(c)[2];
    CourseSafeIff(TheEnv(c), Logs(c), Cursor(0, 0), [x]);
    assert [x][0] == x;
  }
}
