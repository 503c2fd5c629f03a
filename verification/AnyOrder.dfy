/** The cursor when events are served in any order, as when live events come between those of the history, through any
    crashes and restarts, with lookups and recordings that may fail: exactly when it stays a safe resume point. */
module AnyOrder {
  import opened Evm
  import opened Store
  import opened Pipeline
  import opened Service
  import opened Replay
  import opened Resume

  /** One turn of the worker with the system before and after it; it may be cut off anywhere. */
  datatype Served = Served(start: Sys, turn: Turn, end: Sys)

  ghost predicate Happened(e: Env, x: Served) {
    && x.start.worker.Idle?
    && HandlesOne(x.turn.acts, x.turn.ev, x.turn.o)
    && RunFrom(e, x.start, x.turn.acts) == Some(x.end)
  }

  /** Turn after turn; in between others act, and the daemon may crash and start again. */
  ghost predicate Course(e: Env, xs: seq<Served>) {
    && (forall k :: 0 <= k < |xs| ==> Happened(e, xs[k]))
    && (forall k :: 0 < k < |xs| ==> SameBook(xs[k].start.tables, xs[k - 1].end.tables))
  }

  lemma CourseSnoc(e: Env, xs: seq<Served>, x: Served)
    requires Course(e, xs) && Happened(e, x)
    requires xs != [] ==> SameBook(x.start.tables, xs[|xs| - 1].end.tables)
    ensures Course(e, xs + [x])
  {
    assert forall k :: 0 <= k < |xs| ==> (xs + [x])[k] == xs[k];
  }

  lemma SameTurnsSnoc(xs: seq<Served>, x: Served, turns: seq<Turn>)
    requires |turns| == |xs| + 1 && x.turn == turns[|xs|]
    requires forall k :: 0 <= k < |xs| ==> xs[k].turn == turns[..|xs|][k]
    ensures forall k :: 0 <= k < |xs + [x]| ==> (xs + [x])[k].turn == turns[k]
  {
  }

  /** Whatever a life serves is such a course. */
  lemma {:induction false} ServesCourse(e: Env, s: Sys, turns: seq<Turn>, s': Sys) returns (xs: seq<Served>)
    requires Serves(e, s, turns, s')
    ensures Course(e, xs) && |xs| == |turns| && forall k :: 0 <= k < |xs| ==> xs[k].turn == turns[k]
    ensures xs != [] ==> SameBook(xs[0].start.tables, s.tables)
    ensures SameBook(s'.tables, if xs == [] then s.tables else xs[|xs| - 1].end.tables)
    decreases |turns|
  {
    if turns == [] {
      xs := [];
      var acts :| AllElsewhere(acts) && RunFrom(e, s, acts) == Some(s');
      OthersOnly(e, s, acts);
    } else {
      var n := |turns| - 1;
      var mid :| Serves(e, s, turns[..n], mid) && mid.worker.Idle? && RunFrom(e, mid, turns[n].acts) == Some(s');
      var init := ServesCourse(e, s, turns[..n], mid);
      var last := Served(mid, turns[n], s');
      assert Happened(e, last);
      CourseSnoc(e, init, last);
      xs := init + [last];
      SameTurnsSnoc(init, last, turns);
    }
  }

  /** The turn came to its end, did not pass over its event, and recorded it. */
  ghost predicate Records(x: Served) {
    x.end.worker.Idle? && !Skips(x.start.tables, x.turn.ev, x.turn.o) && Stored(x.turn.o)
  }

  /** Every event from `base` up to this one, itself apart, has a decision row. */
  ghost predicate DecidedBefore(logs: seq<Event>, base: Cursor, t: Tables, ev: Event) {
    forall e :: e in logs && After(e, base) && !After(e, PositionOf(ev)) && e.id != ev.id ==> e.id in DecidedIds(t)
  }

  /** A turn that records adds its id and moves the cursor to its event; any other leaves both alone. */
  lemma TurnEffect(e: Env, x: Served)
    requires Happened(e, x)
    ensures !Records(x) ==> SameBook(x.end.tables, x.start.tables)
    ensures Records(x) && x.turn.ev.logIndex < 0x1_0000_0000 ==>
      && DecidedIds(x.end.tables) == DecidedIds(x.start.tables) + {x.turn.ev.id}
      && Position(x.end.tables) == PositionOf(x.turn.ev)
  {
    TurnInHand(e, x.start, x.turn);
    if x.end.worker.Idle? {
      var d :| Ends(x.start.tables, x.end, x.turn.ev, x.turn.o, d);
      EndEffect(x.start.tables, x.end.tables, x.turn.ev, x.turn.o, d);
    }
  }

  lemma EndEffect(t: Tables, t': Tables, ev: Event, o: Oracle, d: Option<Decision>)
    requires (d.Some? <==> Stored(o)) && SameBook(t', TurnAs(t, ev, o, d))
    ensures Skips(t, ev, o) || !Stored(o) ==> SameBook(t', t)
    ensures !Skips(t, ev, o) && Stored(o) && ev.logIndex < 0x1_0000_0000 ==>
      DecidedIds(t') == DecidedIds(t) + {ev.id} && Position(t') == PositionOf(ev)
  {
    if !Skips(t, ev, o) && Stored(o) {
      RecordedEffect(t, t', ToDecisionRow(ev, d.value));
    }
  }

  lemma RecordedEffect(t: Tables, t': Tables, row: WithdrawEventModel)
    requires SameBook(t', EventRecorded(t, row, false))
    ensures DecidedIds(t') == DecidedIds(t) + {row.withdrawalId}
    ensures ReadCursor(t'.cursors, STREAM) == WithShortIndex(Cursor(row.blockNumber, row.logIndex))
  {
    if HasEvent(t.events, row.withdrawalId) {
      DecidedHasEvent(t, row.withdrawalId);
      assert DecidedIds(t') == DecidedIds(t);
    } else {
      DecidedSnoc(t, t', row);
    }
  }

  /** The turn does not record its event ahead of one that is still undecided. */
  ghost predicate InTime(logs: seq<Event>, base: Cursor, x: Served) {
    Records(x) ==> DecidedBefore(logs, base, x.start.tables, x.turn.ev)
  }

  /** Restarting from the cursor after this turn misses nothing. */
  ghost predicate SafeAfter(logs: seq<Event>, base: Cursor, x: Served) {
    Complete(logs, base, x.end.tables)
  }

  lemma TurnSafeIff(e: Env, logs: seq<Event>, base: Cursor, x: Served)
    requires ChainLogs(logs) && Happened(e, x) && x.turn.ev in logs && Complete(logs, base, x.start.tables)
    ensures SafeAfter(logs, base, x) <==> InTime(logs, base, x)
  {
    TurnEffect(e, x);
    if !Records(x) {
      SameBookSame(logs, base, x.end.tables, x.start.tables);
    }
  }

  /** A course of the chain's events from tables in which nothing is missing. */
  ghost predicate FromSafe(e: Env, logs: seq<Event>, base: Cursor, xs: seq<Served>) {
    && ChainLogs(logs) && Course(e, xs)
    && (forall k :: 0 <= k < |xs| ==> xs[k].turn.ev in logs)
    && (xs != [] ==> Complete(logs, base, xs[0].start.tables))
  }

  lemma NextSafeIff(e: Env, logs: seq<Event>, base: Cursor, xs: seq<Served>, k: nat)
    requires FromSafe(e, logs, base, xs) && k < |xs| && (k > 0 ==> SafeAfter(logs, base, xs[k - 1]))
    ensures SafeAfter(logs, base, xs[k]) <==> InTime(logs, base, xs[k])
  {
    if k > 0 { SameBookSame(logs, base, xs[k].start.tables, xs[k - 1].end.tables); }
    TurnSafeIff(e, logs, base, xs[k]);
  }

  lemma {:induction false} SafeIfInTime(e: Env, logs: seq<Event>, base: Cursor, xs: seq<Served>, k: nat)
    requires FromSafe(e, logs, base, xs) && k < |xs| && forall m :: 0 <= m < |xs| ==> InTime(logs, base, xs[m])
    ensures SafeAfter(logs, base, xs[k])
  {
    if k > 0 { SafeIfInTime(e, logs, base, xs, k - 1); }
    NextSafeIff(e, logs, base, xs, k);
  }

  lemma InTimeIfSafe(e: Env, logs: seq<Event>, base: Cursor, xs: seq<Served>, k: nat)
    requires FromSafe(e, logs, base, xs) && k < |xs| && forall m :: 0 <= m < |xs| ==> SafeAfter(logs, base, xs[m])
    ensures InTime(logs, base, xs[k])
  {
    NextSafeIff(e, logs, base, xs, k);
  }

  /** The exact condition. After every turn of any course every event up to the cursor has its decision row, so that
      restarting from the cursor misses nothing, if and only if no turn records an event ahead of one that is still
      undecided. */
  lemma CourseSafeIff(e: Env, logs: seq<Event>, base: Cursor, xs: seq<Served>)
    requires FromSafe(e, logs, base, xs)
    ensures (forall k :: 0 <= k < |xs| ==> SafeAfter(logs, base, xs[k])) <==>
      forall k :: 0 <= k < |xs| ==> InTime(logs, base, xs[k])
  {
    if forall k :: 0 <= k < |xs| ==> InTime(logs, base, xs[k]) {
      forall k | 0 <= k < |xs| ensures SafeAfter(logs, base, xs[k]) {
        SafeIfInTime(e, logs, base, xs, k);
      }
    }
    if forall k :: 0 <= k < |xs| ==> SafeAfter(logs, base, xs[k]) {
      forall k | 0 <= k < |xs| ensures InTime(logs, base, xs[k]) {
        InTimeIfSafe(e, logs, base, xs, k);
      }
    }
  }
}
