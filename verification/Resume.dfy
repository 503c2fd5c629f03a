/** The daemon as it runs, seen from the cursor: serving events one after the other along paths of the protocol,
    cut off anywhere, does to decisions and cursor what a replay session does. */
module Resume {
  import opened Evm
  import opened Store
  import opened Pipeline
  import opened Service
  import opened Listener
  import opened Replay
  import PipelineOnce
  import S = SimpleSpec

  /** The tables agree on decisions and cursors; they may differ in the limit log. */
  predicate SameBook(t: Tables, u: Tables) {
    t.events == u.events && t.cursors == u.cursors
  }

  // ---- one turn ----

  /** The database stores the decision of this turn. */
  predicate Stored(o: Oracle) {
    !o.recordFails
  }

  /** The event is found to be known and passed over. */
  predicate Skips(t: Tables, ev: Event, o: Oracle) {
    HasEvent(t.events, ev.id) && !o.knownFails
  }

  /** What a whole turn does to decisions and cursor; a failing lookup makes it record a known event again. */
  function TurnAs(t: Tables, ev: Event, o: Oracle, d: Option<Decision>): Tables {
    if d.None? || Skips(t, ev, o) then t else EventRecorded(t, ToDecisionRow(ev, d.value), false)
  }

  /** How far the turn has come: not yet at its end, or ended with some decision, recorded if the database allowed. */
  ghost predicate InHand(t: Tables, s: Sys, ev: Event, o: Oracle) {
    if s.worker.Idle? then exists d :: Ends(t, s, ev, o, d)
    else s.worker.ev == ev && !Skips(t, ev, o) && SameBook(s.tables, t)
  }

  ghost predicate Ends(t: Tables, s: Sys, ev: Event, o: Oracle, d: Option<Decision>) {
    (d.Some? <==> Stored(o)) && SameBook(s.tables, TurnAs(t, ev, o, d))
  }

  lemma Received(e: Env, s: Sys, ev: Event, o: Oracle)
    requires s.worker.Idle? && Step(e, s, Receive(ev, o.knownFails)).Some?
    ensures InHand(s.tables, Step(e, s, Receive(ev, o.knownFails)).value, ev, o)
  {
    if Skips(s.tables, ev, o) {
      assert Ends(s.tables, s, ev, o, if Stored(o) then Some(Failed) else None);
    }
  }

  lemma StepInHand(e: Env, t: Tables, s: Sys, act: Act, ev: Event, o: Oracle)
    requires InHand(t, s, ev, o) && Step(e, s, act).Some? && InTurn(o, act)
    ensures InHand(t, Step(e, s, act).value, ev, o)
  {
    var s' := Step(e, s, act).value;
    if act.RecordDecision? && s.worker.Deciding? {
      assert Ends(t, s', ev, o, if Stored(o) then Some(s.worker.decision) else None);
    } else if s.worker.Idle? {
      var d :| Ends(t, s, ev, o, d);
      assert Ends(t, s', ev, o, d);
    }
  }

  lemma {:induction false} ActsInHand(e: Env, t: Tables, s: Sys, acts: seq<Act>, ev: Event, o: Oracle)
    requires InHand(t, s, ev, o) && RunFrom(e, s, acts).Some?
    requires forall i :: 0 <= i < |acts| ==> InTurn(o, acts[i])
    ensures InHand(t, RunFrom(e, s, acts).value, ev, o)
    decreases |acts|
  {
    if acts != [] {
      StepInHand(e, t, s, acts[0], ev, o);
      ActsInHand(e, t, Step(e, s, acts[0]).value, acts[1..], ev, o);
    }
  }

  /** Wherever a turn is cut off, either nothing has been recorded of the event, or exactly its decision and the
      cursor. */
  lemma TurnInHand(e: Env, s: Sys, turn: Turn)
    requires s.worker.Idle? && HandlesOne(turn.acts, turn.ev, turn.o) && RunFrom(e, s, turn.acts).Some?
    ensures InHand(s.tables, RunFrom(e, s, turn.acts).value, turn.ev, turn.o)
  {
    Received(e, s, turn.ev, turn.o);
    ActsInHand(e, s.tables, Step(e, s, turn.acts[0]).value, turn.acts[1..], turn.ev, turn.o);
  }

  /** What others do touches no table and leaves an idle worker idle. */
  lemma {:induction false} OthersOnly(e: Env, s: Sys, acts: seq<Act>)
    requires AllElsewhere(acts) && RunFrom(e, s, acts).Some?
    ensures RunFrom(e, s, acts).value.tables == s.tables && RunFrom(e, s, acts).value.worker == s.worker
    decreases |acts|
  {
    if acts != [] {
      OthersOnly(e, Step(e, s, acts[0]).value, acts[1..]);
    }
  }

  // ---- a whole life ----

  /** The database says truly whether the event is known; a failing lookup reads as unknown. */
  ghost predicate LookedUp(t: Tables, ev: Event, o: Oracle) {
    o.knownFails ==> !HasEvent(t.events, ev.id)
  }

  /** Then the whole turn handles the event as `Replay` does. */
  lemma TurnHandles(t: Tables, ev: Event, o: Oracle, d: Option<Decision>)
    requires LookedUp(t, ev, o)
    ensures TurnAs(t, ev, o, d) == HandleAs(t, ev, d)
  {
  }

  /** The turns that came to their end. */
  function Completed(turns: seq<Turn>, s': Sys): seq<Turn> {
    if s'.worker.Idle? || turns == [] then turns else turns[..|turns| - 1]
  }

  /** Decisions about other events do not matter. */
  lemma {:induction false} HandleAllAgree(t: Tables, evs: seq<Event>, f: Bookkeeping, g: Bookkeeping)
    requires forall ev :: ev in evs ==> f(ev) == g(ev)
    ensures HandleAll(t, evs, f) == HandleAll(t, evs, g)
  {
    if evs != [] {
      HandleAllAgree(t, evs[..|evs| - 1], f, g);
      assert evs[|evs| - 1] in evs;
    }
  }

  /** What is recorded of each turn's event is what the database allowed. */
  ghost predicate Fits(turns: seq<Turn>, decide: Bookkeeping) {
    forall i :: 0 <= i < |turns| ==> (decide(turns[i].ev).Some? <==> Stored(turns[i].o))
  }

  ghost predicate ReplayedAs(t: Tables, turns: seq<Turn>, t': Tables, decide: Bookkeeping) {
    Fits(turns, decide) && SameBook(t', HandleAll(t, EventsOf(turns), decide))
  }

  ghost predicate Replayed(t: Tables, turns: seq<Turn>, t': Tables) {
    exists decide :: ReplayedAs(t, turns, t', decide)
  }

  lemma ReplayedSnoc(t: Tables, turns: seq<Turn>, turn: Turn, mid: Tables, t': Tables, d: Option<Decision>)
    requires Replayed(t, turns, mid) && turn.ev !in EventsOf(turns)
    requires (d.Some? <==> Stored(turn.o)) && SameBook(t', HandleAs(mid, turn.ev, d))
    ensures Replayed(t, turns + [turn], t')
  {
    var f: Bookkeeping :| ReplayedAs(t, turns, mid, f);
    var g := (x: Event) => if x == turn.ev then d else f(x);
    var evs := EventsOf(turns);
    assert EventsOf(turns + [turn]) == evs + [turn.ev];
    HandleAllAgree(t, evs, f, g);
    assert (evs + [turn.ev])[..|evs|] == evs;
    FitsSnoc(turns, turn, f, g);
    assert ReplayedAs(t, turns + [turn], t', g);
  }

  lemma FitsSnoc(turns: seq<Turn>, turn: Turn, f: Bookkeeping, g: Bookkeeping)
    requires Fits(turns, f) && turn.ev !in EventsOf(turns) && (g(turn.ev).Some? <==> Stored(turn.o))
    requires forall x :: x != turn.ev ==> g(x) == f(x)
    ensures Fits(turns + [turn], g)
  {
    forall i | 0 <= i < |turns| ensures turns[i].ev != turn.ev {
      assert EventsOf(turns)[i] == turns[i].ev;
    }
  }

  lemma ReplayedSame(t: Tables, turns: seq<Turn>, mid: Tables, t': Tables)
    requires Replayed(t, turns, mid) && SameBook(t', mid)
    ensures Replayed(t, turns, t')
  {
    var f: Bookkeeping :| ReplayedAs(t, turns, mid, f);
    assert ReplayedAs(t, turns, t', f);
  }

  ghost predicate DistinctEvents(turns: seq<Turn>) {
    forall i, k :: 0 <= i < k < |turns| ==> turns[i].ev.id != turns[k].ev.id
  }

  /** A lookup that fails is about an event that had no decision row before the first turn. */
  ghost predicate AllLookedUp(t: Tables, turns: seq<Turn>) {
    forall i :: 0 <= i < |turns| ==> LookedUp(t, turns[i].ev, turns[i].o)
  }

  /** Serving different withdrawals does to decisions and cursor what handling, in order, those turns does that came to
      their end, each recorded exactly if the database allowed it. */
  lemma {:induction false} ServingReplays(e: Env, s: Sys, turns: seq<Turn>, s': Sys)
    requires Serves(e, s, turns, s') && DistinctEvents(turns) && AllLookedUp(s.tables, turns)
    requires PipelineOnce.UniqueDecisions(s.tables.events)
    ensures Replayed(s.tables, Completed(turns, s'), s'.tables)
    decreases |turns|
  {
    if turns == [] {
      NothingServed(e, s, s');
    } else {
      var n := |turns| - 1;
      var mid :| Serves(e, s, turns[..n], mid) && mid.worker.Idle? && RunFrom(e, mid, turns[n].acts) == Some(s');
      ServingReplays(e, s, turns[..n], mid);
      StillLookedUp(s.tables, turns, mid.tables);
      TurnInHand(e, mid, turns[n]);
      TurnReplayed(s.tables, turns, mid.tables, s');
    }
  }

  lemma NothingServed(e: Env, s: Sys, s': Sys)
    requires Serves(e, s, [], s')
    ensures Replayed(s.tables, [], s'.tables) && s'.worker.Idle?
  {
    var acts :| AllElsewhere(acts) && RunFrom(e, s, acts) == Some(s');
    OthersOnly(e, s, acts);
    assert ReplayedAs(s.tables, [], s'.tables, (ev: Event) => None);
  }

  /** The turns before concerned other ids. */
  lemma StillLookedUp(t: Tables, turns: seq<Turn>, mid: Tables)
    requires turns != [] && DistinctEvents(turns) && AllLookedUp(t, turns) && PipelineOnce.UniqueDecisions(t.events)
    requires Replayed(t, turns[..|turns| - 1], mid)
    ensures LookedUp(mid, turns[|turns| - 1].ev, turns[|turns| - 1].o)
  {
    var init, last := turns[..|turns| - 1], turns[|turns| - 1];
    var f: Bookkeeping :| ReplayedAs(t, init, mid, f);
    var replayed := HandleAll(t, EventsOf(init), f);
    HandleAllRecords(t, EventsOf(init), f);
    DecidedHasEvent(t, last.ev.id);
    DecidedHasEvent(replayed, last.ev.id);
    NotRecorded(turns, f);
  }

  lemma NotRecorded(turns: seq<Turn>, f: Bookkeeping)
    requires turns != [] && DistinctEvents(turns)
    ensures turns[|turns| - 1].ev.id !in RecordedIds(EventsOf(turns[..|turns| - 1]), f)
  {
    var evs := EventsOf(turns[..|turns| - 1]);
    forall ev | ev in evs ensures ev.id != turns[|turns| - 1].ev.id {
      var i :| 0 <= i < |evs| && evs[i] == ev;
    }
  }

  lemma TurnReplayed(t: Tables, turns: seq<Turn>, mid: Tables, s': Sys)
    requires turns != [] && DistinctEvents(turns)
    requires Replayed(t, turns[..|turns| - 1], mid) && InHand(mid, s', turns[|turns| - 1].ev, turns[|turns| - 1].o)
    requires LookedUp(mid, turns[|turns| - 1].ev, turns[|turns| - 1].o)
    ensures Replayed(t, Completed(turns, s'), s'.tables)
  {
    var init, last := turns[..|turns| - 1], turns[|turns| - 1];
    if s'.worker.Idle? {
      var d :| Ends(mid, s', last.ev, last.o, d);
      TurnHandles(mid, last.ev, last.o, d);
      forall i | 0 <= i < |init| ensures EventsOf(init)[i] != last.ev {
        assert turns[i].ev.id != last.ev.id;
      }
      ReplayedSnoc(t, init, last, mid, s'.tables, d);
      assert turns == init + [last];
    } else {
      ReplayedSame(t, init, mid, s'.tables);
    }
  }

  // ---- lives ----

  /** The daemon from one start to the next crash: the system then and there, the turns it took, and what the
      provider did. */
  datatype Life = Life(start: Sys, turns: seq<Turn>, end: Sys, x: Session)

  /** Where this life starts from. */
  function Origin(l: Life): Cursor {
    StartPosition(l.start.tables, l.x.readFails)
  }

  /** The daemon reads its cursor and serves, in order and from the first one on, events that reconciliation
      sends it. Lookups and recordings may fail. */
  ghost predicate Lived(e: Env, logs: seq<Event>, l: Life) {
    && Serves(e, l.start, l.turns, l.end)
    && Reasonable(logs, Origin(l), l.x)
    && EventsOf(l.turns) <= SentEvents(logs, Origin(l), l.x)
  }

  /** In this life no recording succeeded after one that failed. */
  ghost predicate StoredInOrder(l: Life) {
    var turns := Completed(l.turns, l.end);
    forall i, k :: 0 <= i < k < |turns| && Stored(turns[k].o) ==> Stored(turns[i].o)
  }

  lemma StoredNoGap(turns: seq<Turn>, decide: Bookkeeping)
    requires Fits(turns, decide)
    ensures NoGap(EventsOf(turns), decide) <==>
      forall i, k :: 0 <= i < k < |turns| && Stored(turns[k].o) ==> Stored(turns[i].o)
  {
    var evs := EventsOf(turns);
    assert forall i :: 0 <= i < |turns| ==> (decide(evs[i]).Some? <==> Stored(turns[i].o));
    if NoGap(evs, decide) {
      forall i, k | 0 <= i < k < |turns| && Stored(turns[k].o) ensures Stored(turns[i].o) {
        assert decide(evs[k]).Some? && decide(evs[i]).Some?;
      }
    }
  }

  lemma SameBookSame(logs: seq<Event>, base: Cursor, t: Tables, u: Tables)
    requires SameBook(t, u)
    ensures Resumable(logs, base, t) == Resumable(logs, base, u) && Complete(logs, base, t) == Complete(logs, base, u)
  {
    assert DecidedIds(t) == DecidedIds(u);
  }

  /** What a life has served are new events, each once. */
  lemma ServedNew(e: Env, logs: seq<Event>, base: Cursor, l: Life)
    requires ChainLogs(logs) && Resumable(logs, base, l.start.tables) && Lived(e, logs, l)
    ensures DistinctEvents(l.turns) && AllLookedUp(l.start.tables, l.turns)
  {
    if l.turns != [] {
      var t, evs := l.start.tables, EventsOf(l.turns);
      var x := l.x.(handled := |evs|);
      SameSession(logs, Origin(l), l.x, x);
      HandledIsBlock(logs, Origin(l), x);
      assert HandledEvents(logs, Origin(l), x) == evs;
      BlockIsNew(logs, Origin(l), DecidedIds(t), evs);
      forall i | 0 <= i < |l.turns| ensures LookedUp(t, l.turns[i].ev, l.turns[i].o) {
        assert evs[i].id !in DecidedIds(t);
        DecidedHasEvent(t, evs[i].id);
      }
    }
  }

  /** What is sent does not depend on how it is handled. */
  lemma SameSession(logs: seq<Event>, c: Cursor, x: Session, y: Session)
    requires Reasonable(logs, c, x) && y == x.(handled := y.handled, decide := y.decide)
    ensures Reasonable(logs, c, y) && SentEvents(logs, c, y) == SentEvents(logs, c, x)
  {
    assert JobOf(logs, c, x) == JobOf(logs, c, y);
  }

  lemma HandledPrefix(logs: seq<Event>, c: Cursor, x: Session, evs: seq<Event>)
    requires evs <= SentEvents(logs, c, x) && x.handled == |evs|
    ensures HandledEvents(logs, c, x) == evs
  {
  }

  lemma CompletedPrefix(l: Life)
    ensures EventsOf(Completed(l.turns, l.end)) <= EventsOf(l.turns)
  {
  }

  /** A life of the daemon is a replay session that handles the completed turns. */
  lemma LifeIsSession(e: Env, logs: seq<Event>, base: Cursor, l: Life) returns (x: Session)
    requires ChainLogs(logs) && Resumable(logs, base, l.start.tables) && Lived(e, logs, l)
    ensures x == l.x.(handled := |Completed(l.turns, l.end)|, decide := x.decide) && Reasonable(logs, Origin(l), x)
    ensures SameBook(l.end.tables, AfterSession(logs, l.start.tables, x))
    ensures HandledEvents(logs, Origin(l), x) == EventsOf(Completed(l.turns, l.end))
    ensures Fits(Completed(l.turns, l.end), x.decide)
  {
    var t, done := l.start.tables, Completed(l.turns, l.end);
    ServedNew(e, logs, base, l);
    ServingReplays(e, l.start, l.turns, l.end);
    var f: Bookkeeping :| ReplayedAs(t, done, l.end.tables, f);
    x := l.x.(handled := |done|, decide := f);
    SameSession(logs, Origin(l), l.x, x);
    CompletedPrefix(l);
    HandledPrefix(logs, Origin(l), x, EventsOf(done));
  }

  /** After one life of the daemon, cut off at whatever effect, nothing is missing behind the cursor exactly if nothing
      was before and no recording succeeded after one that failed. */
  lemma LifeKeepsSafe(e: Env, logs: seq<Event>, base: Cursor, l: Life)
    requires ChainLogs(logs) && Resumable(logs, base, l.start.tables) && Lived(e, logs, l)
    ensures Resumable(logs, base, l.end.tables)
    ensures Complete(logs, base, l.end.tables) <==> Complete(logs, base, l.start.tables) && StoredInOrder(l)
  {
    var x := LifeIsSession(e, logs, base, l);
    SessionKeepsSafe(logs, base, l.start.tables, x);
    StoredNoGap(Completed(l.turns, l.end), x.decide);
    SameBookSame(logs, base, l.end.tables, AfterSession(logs, l.start.tables, x));
  }

  /** Life after life: between a crash and the next start the tables stay; clock, chain and provider need not. */
  ghost predicate Restarted(ls: seq<Life>) {
    forall i :: 0 < i < |ls| ==> ls[i].start.tables == ls[i - 1].end.tables
  }

  lemma {:induction false} LivesCompleteSoFar(e: Env, logs: seq<Event>, base: Cursor, ls: seq<Life>, n: nat)
    requires ChainLogs(logs) && Restarted(ls) && n < |ls| && SafePoint(logs, base, ls[0].start.tables)
    requires forall k :: 0 <= k < |ls| ==> Lived(e, logs, ls[k])
    ensures Resumable(logs, base, ls[n].end.tables)
    ensures Complete(logs, base, ls[n].end.tables) <==> forall k :: 0 <= k <= n ==> StoredInOrder(ls[k])
  {
    if n > 0 { LivesCompleteSoFar(e, logs, base, ls, n - 1); }
    LifeKeepsSafe(e, logs, base, ls[n]);
  }

  /** Through any number of lives of the daemon the cursor is a safe resume point exactly as long as in none of them a
      recording succeeded after one that failed. */
  lemma LivesKeepSafe(e: Env, logs: seq<Event>, base: Cursor, ls: seq<Life>, n: nat)
    requires ChainLogs(logs) && Restarted(ls) && n < |ls| && SafePoint(logs, base, ls[0].start.tables)
    requires forall k :: 0 <= k < |ls| ==> Lived(e, logs, ls[k])
    ensures SafePoint(logs, base, ls[n].end.tables) <==> forall k :: 0 <= k <= n ==> StoredInOrder(ls[k])
  {
    LivesCompleteSoFar(e, logs, base, ls, n);
  }

  /** A life that serves all it is sent, and records it, leaves every event after `base` in the covered blocks with
      exactly one decision row. */
  lemma LifeCompletes(e: Env, logs: seq<Event>, base: Cursor, l: Life, ev: Event)
    requires ChainLogs(logs) && SafePoint(logs, base, l.start.tables) && Lived(e, logs, l)
    requires Origin(l).blockNumber != 0 && l.end.worker.Idle?
    requires EventsOf(l.turns) == SentEvents(logs, Origin(l), l.x) && forall turn :: turn in l.turns ==> Stored(turn.o)
    requires ev in logs && After(ev, base) && ev.blockNumber < Reconciled(logs, Origin(l), l.x).start
    ensures HasEvent(l.end.tables.events, ev.id) && PipelineOnce.UniqueDecisions(l.end.tables.events)
  {
    var x := LifeIsSession(e, logs, base, l);
    SameSession(logs, Origin(l), l.x, x);
    AllStoredRecorded(l.turns, x.decide);
    RestartCompletes(logs, base, l.start.tables, x, ev);
  }

  lemma AllStoredRecorded(turns: seq<Turn>, decide: Bookkeeping)
    requires Fits(turns, decide) && forall turn :: turn in turns ==> Stored(turn.o)
    ensures AllRecorded(EventsOf(turns), decide)
  {
  }

  // ---- a life in code ----

  /** Read the cursor and reconcile the history from there, unless it is zero. */
  method Deliver(d: Daemon, logs: seq<Event>, x: Session) returns (sent: seq<Event>)
    requires d.Valid()
    ensures sent == SentEvents(logs, StartPosition(d.store.Contents(), x.readFails), x)
  {
    var position := d.ReadStart(x.readFails);
    if position.blockNumber == 0 { return []; }
    var result := ReconcileBlockRange(JobOf(logs, position, x), x.patience);
    return result.sent;
  }

  /** When the chain has emitted all that is offered, each event has its turn, under its own answers. */
  lemma AllServed(chain: S.Chain, events: seq<Event>, oracles: seq<Oracle>, picked: seq<nat>, turns: seq<Turn>)
    requires |events| == |oracles| && Offered(chain, events, oracles, |events|, picked, turns)
    requires forall ev :: ev in events ==> Genuine(chain, ev)
    ensures EventsOf(turns) == events && forall k :: 0 <= k < |turns| ==> turns[k].o == oracles[k]
  {
    assert forall i :: 0 <= i < |events| ==> events[i] in events;
    assert events[..|events|] == events;
    FullPicks(events, oracles, picked, turns);
  }

  /** One life of the daemon: read the cursor, reconcile the history from there unless it is zero, serve what comes
      of it in order. It is such a life as the theorems above are about, with these answers. */
  method Live(d: Daemon, logs: seq<Event>, x: Session, oracles: seq<Oracle>) returns (ghost life: Life)
    requires d.Valid() && d.worker == Idle && Sound(d.env, d.World(), d.World())
    requires Ordered(logs) && forall ev :: ev in logs ==> Genuine(d.chain, ev)
    requires Reasonable(logs, StartPosition(d.store.Contents(), x.readFails), x)
    requires |oracles| == |SentEvents(logs, StartPosition(d.store.Contents(), x.readFails), x)|
    modifies d, d.store
    ensures d.Valid() && d.worker == Idle && Sound(d.env, old(d.World()), d.World())
    ensures Lived(d.env, logs, life) && life.start == old(d.World()) && life.end == d.World() && life.x == x
    ensures EventsOf(life.turns) == SentEvents(logs, Origin(life), x)
    ensures forall k :: 0 <= k < |life.turns| ==> life.turns[k].o == oracles[k]
  {
    ghost var before := d.World();
    var sent := Deliver(d, logs, x);
    SentGenuine(before.chain, logs, StartPosition(before.tables, x.readFails), x);
    ghost var picked, turns := d.RunWorker(sent, oracles);
    AllServed(before.chain, sent, oracles, picked, turns);
    life := Life(before, turns, d.World(), x);
  }

  lemma SentGenuine(chain: S.Chain, logs: seq<Event>, c: Cursor, x: Session)
    requires Ordered(logs) && Reasonable(logs, c, x) && forall ev :: ev in logs ==> Genuine(chain, ev)
    ensures forall ev :: ev in SentEvents(logs, c, x) ==> Genuine(chain, ev)
  {
    Delivered(logs, c, x);
  }
}
