/** The worker of the daemon as it runs: one event after the other, effects in sequence, and between any two
    of them the rest of the world. Each run of it is proved to be a path of the protocol in Pipeline.dfy, so
    everything proved of the protocol holds of it, wherever it is cut off by a crash. */
module Service {
  import opened Evm
  import opened Store
  import opened Checker
  import opened Pipeline
  import PipelineLimits
  import PipelineOnce
  import S = SimpleSpec

  /** What the outside answers while one event is handled; pause(i) is what happens elsewhere before the
      i-th effect, pause(8) before the event arrives. */
  datatype Oracle = Oracle(
    knownFails: bool, globalFaults: Faults, userFaults: Faults, accepted: bool, hash: Word, answered: bool,
    saveFails: bool, recordFails: bool, pause: nat -> seq<Act>)

  predicate Elsewhere(act: Act) {
    act.Tick? || act.Others? || act.Mine?
  }

  /** The answers in a worker's act are those of the oracle. */
  ghost predicate Answers(o: Oracle, act: Act) {
    match act
    case Receive(_, f) => f == o.knownFails
    case CheckGlobal(f) => f == o.globalFaults
    case CheckUser(f) => f == o.userFaults
    case SendFinalize(a, h) => a == o.accepted && h == o.hash
    case SendReject(a, h) => a == o.accepted && h == o.hash
    case SaveRow(f) => f == o.saveFails
    case AwaitFinalize(a) => a == o.answered
    case AwaitReject(a) => a == o.answered
    case RecordDecision(f) => f == o.recordFails
    case _ => true
  }

  /** The acts handle one event from its receipt on, without a crash and without taking up another event. */
  ghost predicate HandlesOne(acts: seq<Act>, ev: Event, o: Oracle) {
    && |acts| > 0 && acts[0] == Receive(ev, o.knownFails)
    && forall i :: 1 <= i < |acts| ==> InTurn(o, acts[i])
  }

  /** An act while one event is handled: elsewhere, or of the worker. */
  ghost predicate InTurn(o: Oracle, act: Act) {
    Elsewhere(act) || (!act.Receive? && !act.Crash? && Answers(o, act))
  }

  ghost predicate AllElsewhere(acts: seq<Act>) {
    forall i :: 0 <= i < |acts| ==> Elsewhere(acts[i])
  }

  /** Only others have acted. */
  ghost predicate Passes(e: Env, s: Sys, s': Sys) {
    exists acts :: AllElsewhere(acts) && RunFrom(e, s, acts) == Some(s')
  }

  /** The worker's turn with one event: the effects of it and of the rest of the world. */
  datatype Turn = Turn(ev: Event, acts: seq<Act>, o: Oracle)

  /** While nothing has arrived others act; then one turn after the other, each but the last to its end, with
      what others do until the next event arrives; the last may be cut off anywhere. */
  ghost predicate Serves(e: Env, s: Sys, turns: seq<Turn>, s': Sys)
    decreases |turns|
  {
    if turns == [] then s.worker.Idle? && Passes(e, s, s')
    else
      var turn := turns[|turns| - 1];
      && HandlesOne(turn.acts, turn.ev, turn.o)
      && exists mid ::
           Serves(e, s, turns[..|turns| - 1], mid) && mid.worker.Idle? && RunFrom(e, mid, turn.acts) == Some(s')
  }

  function EventsOf(turns: seq<Turn>): (evs: seq<Event>)
    ensures |evs| == |turns| && forall i :: 0 <= i < |turns| ==> evs[i] == turns[i].ev
  {
    seq(|turns|, i requires 0 <= i < |turns| => turns[i].ev)
  }

  lemma ServesSnoc(e: Env, s: Sys, turns: seq<Turn>, mid: Sys, turn: Turn, s': Sys)
    requires Serves(e, s, turns, mid) && mid.worker.Idle?
    requires HandlesOne(turn.acts, turn.ev, turn.o) && RunFrom(e, mid, turn.acts) == Some(s')
    ensures Serves(e, s, turns + [turn], s')
  {
    assert (turns + [turn])[..|turns|] == turns;
  }

  /** What others do after the last turn, up to the next, belongs to it. */
  function Extended(turns: seq<Turn>, moves: seq<Act>): seq<Turn> {
    if turns == [] then []
    else
      var n := |turns| - 1;
      turns[..n] + [turns[n].(acts := turns[n].acts + moves)]
  }

  lemma ServesNothing(e: Env, s: Sys)
    requires s.worker.Idle?
    ensures Serves(e, s, [], s)
  {
    assert AllElsewhere([]) && RunFrom(e, s, []) == Some(s);
  }

  lemma PassesOn(e: Env, s: Sys, mid: Sys, moves: seq<Act>, s': Sys)
    requires Passes(e, s, mid) && AllElsewhere(moves) && RunFrom(e, mid, moves) == Some(s')
    ensures Passes(e, s, s')
  {
    var acts :| AllElsewhere(acts) && RunFrom(e, s, acts) == Some(mid);
    RunConcat(e, s, acts, moves);
    assert AllElsewhere(acts + moves);
  }

  lemma ServesPause(e: Env, s: Sys, turns: seq<Turn>, mid: Sys, moves: seq<Act>, s': Sys)
    requires Serves(e, s, turns, mid) && AllElsewhere(moves) && RunFrom(e, mid, moves) == Some(s')
    ensures Serves(e, s, Extended(turns, moves), s')
  {
    if turns == [] {
      PassesOn(e, s, mid, moves, s');
    } else {
      var n := |turns| - 1;
      var start :| Serves(e, s, turns[..n], start) && start.worker.Idle? &&
        RunFrom(e, start, turns[n].acts) == Some(mid);
      RunConcat(e, start, turns[n].acts, moves);
      var last := turns[n].(acts := turns[n].acts + moves);
      assert HandlesOne(last.acts, last.ev, last.o);
      ServesSnoc(e, s, turns[..n], start, last, s');
    }
  }

  /** The invariants hold, and nothing decided, recorded or paid in `before` has been revised. */
  ghost predicate Sound(e: Env, before: Sys, s: Sys) {
    PipelineLimits.LimitInv(e, s) && PipelineOnce.OnceInv(e, s) && PipelineOnce.Grows(before, s)
  }

  lemma SoundAfter(e: Env, before: Sys, s: Sys, acts: seq<Act>)
    requires Sound(e, before, s) && RunFrom(e, s, acts).Some?
    ensures Sound(e, before, RunFrom(e, s, acts).value)
  {
    PipelineLimits.RunKeepsLimits(e, s, acts);
    PipelineOnce.RunKeepsOnce(e, s, acts);
  }

  lemma GenuineStays(e: Env, before: Sys, s: Sys, ev: Event)
    requires Sound(e, before, s) && Genuine(before.chain, ev)
    ensures Genuine(s.chain, ev)
  {
    var i :| 0 <= i < |before.chain.started| && before.chain.started[i].id == ev.id &&
      before.chain.started[i].user == ev.user
      && before.chain.started[i].token == ev.token && before.chain.started[i].amount == ev.amount;
    assert s.chain.started[i] == before.chain.started[i];
  }

  /** The turns took up, in order and under their answers, the events offered at the picked positions. */
  ghost predicate TurnsOf(events: seq<Event>, oracles: seq<Oracle>, picked: seq<nat>, turns: seq<Turn>)
    requires |events| == |oracles|
  {
    && |picked| == |turns|
    && (forall k :: 0 <= k < |picked| ==>
          picked[k] < |events| && turns[k].ev == events[picked[k]] && turns[k].o == oracles[picked[k]])
    && (forall k, m :: 0 <= k < m < |picked| ==> picked[k] < picked[m])
  }

  /** The same events under the same answers. */
  ghost predicate SameTurns(turns: seq<Turn>, turns': seq<Turn>) {
    |turns| == |turns'| && forall k :: 0 <= k < |turns| ==> turns[k].ev == turns'[k].ev && turns[k].o == turns'[k].o
  }

  /** Of the first n events offered there were turns for some, among them all that the chain had emitted; so if it
      had emitted them all, there was a turn for each. */
  ghost predicate Offered(chain: S.Chain, events: seq<Event>, oracles: seq<Oracle>, n: nat, picked: seq<nat>,
                          turns: seq<Turn>)
    requires n <= |events| == |oracles|
  {
    && TurnsOf(events, oracles, picked, turns)
    && (forall k :: 0 <= k < |picked| ==> picked[k] < n)
    && (forall k :: 0 <= k < n && Genuine(chain, events[k]) ==> k in picked)
    && ((forall k :: 0 <= k < n ==> Genuine(chain, events[k])) ==> EventsOf(turns) == events[..n])
  }

  lemma {:induction false} PicksAtLeast(picked: seq<nat>, k: nat)
    requires k < |picked| && forall i, m :: 0 <= i < m < |picked| ==> picked[i] < picked[m]
    ensures picked[k] >= k
    decreases k
  {
    if k > 0 { PicksAtLeast(picked, k - 1); }
  }

  lemma {:induction false} PicksAtMost(picked: seq<nat>, k: nat)
    requires k < |picked| && forall i, m :: 0 <= i < m < |picked| ==> picked[i] < picked[m]
    requires forall i :: 0 <= i < |picked| ==> picked[i] < |picked|
    ensures picked[k] <= k
    decreases |picked| - k
  {
    if k < |picked| - 1 { PicksAtMost(picked, k + 1); }
  }

  /** When there is a turn for every event offered, each has its own answers. */
  lemma FullPicks(events: seq<Event>, oracles: seq<Oracle>, picked: seq<nat>, turns: seq<Turn>)
    requires |events| == |oracles| == |turns| && TurnsOf(events, oracles, picked, turns)
    ensures forall k :: 0 <= k < |turns| ==> turns[k].ev == events[k] && turns[k].o == oracles[k]
  {
    forall k | 0 <= k < |picked| ensures picked[k] == k {
      PicksAtLeast(picked, k);
      PicksAtMost(picked, k);
    }
  }

  lemma TurnsOfSnoc(events: seq<Event>, oracles: seq<Oracle>, n: nat, picked: seq<nat>, turns: seq<Turn>,
                    turns': seq<Turn>)
    requires n < |events| == |oracles| && TurnsOf(events, oracles, picked, turns)
    requires forall k :: 0 <= k < |picked| ==> picked[k] < n
    requires |turns'| > 0 && SameTurns(turns, turns'[..|turns'| - 1])
    requires turns'[|turns'| - 1].ev == events[n] && turns'[|turns'| - 1].o == oracles[n]
    ensures TurnsOf(events, oracles, picked + [n], turns')
  {
    var init := turns'[..|turns'| - 1];
    forall k | 0 <= k < |picked| ensures turns'[k].ev == events[picked[k]] && turns'[k].o == oracles[picked[k]] {
      assert turns'[k] == init[k];
    }
  }

  lemma PickOne(chain: S.Chain, events: seq<Event>, oracles: seq<Oracle>, n: nat, picked: seq<nat>,
                turns: seq<Turn>, turns': seq<Turn>)
    requires n < |events| == |oracles| && Offered(chain, events, oracles, n, picked, turns)
    requires |turns'| > 0 && SameTurns(turns, turns'[..|turns'| - 1])
    requires turns'[|turns'| - 1].ev == events[n] && turns'[|turns'| - 1].o == oracles[n]
    ensures Offered(chain, events, oracles, n + 1, picked + [n], turns')
  {
    TurnsOfSnoc(events, oracles, n, picked, turns, turns');
    assert forall k :: k in picked ==> k in picked + [n];
    assert (picked + [n])[|picked|] == n;
    if EventsOf(turns) == events[..n] { OneMoreEvent(events, n, turns, turns'); }
  }

  lemma OneMoreEvent(events: seq<Event>, n: nat, turns: seq<Turn>, turns': seq<Turn>)
    requires n < |events| && EventsOf(turns) == events[..n]
    requires |turns'| > 0 && SameTurns(turns, turns'[..|turns'| - 1]) && turns'[|turns'| - 1].ev == events[n]
    ensures EventsOf(turns') == events[..n + 1]
  {
    forall k | 0 <= k < n ensures turns'[k].ev == events[k] {
      assert turns'[..|turns'| - 1][k].ev == turns[k].ev == EventsOf(turns)[k] == events[..n][k];
    }
  }

  lemma PickNone(e: Env, before: Sys, s: Sys, events: seq<Event>, oracles: seq<Oracle>, n: nat, picked: seq<nat>,
                 turns: seq<Turn>, turns': seq<Turn>)
    requires n < |events| == |oracles| && Offered(before.chain, events, oracles, n, picked, turns)
    requires SameTurns(turns, turns') && Sound(e, before, s) && !Genuine(s.chain, events[n])
    ensures Offered(before.chain, events, oracles, n + 1, picked, turns')
  {
    if Genuine(before.chain, events[n]) {
      GenuineStays(e, before, s, events[n]);
    }
  }

  lemma NextOffered(e: Env, before: Sys, s: Sys, events: seq<Event>, oracles: seq<Oracle>, n: nat, picked: seq<nat>,
                    turns: seq<Turn>, turns': seq<Turn>, served: bool)
    requires n < |events| == |oracles| && Offered(before.chain, events, oracles, n, picked, turns)
    requires Sound(e, before, s)
    requires if served then |turns'| > 0 && SameTurns(turns, turns'[..|turns'| - 1])
                            && turns'[|turns'| - 1].ev == events[n] && turns'[|turns'| - 1].o == oracles[n]
             else SameTurns(turns, turns') && !Genuine(s.chain, events[n])
    ensures Offered(before.chain, events, oracles, n + 1, if served then picked + [n] else picked, turns')
  {
    if served {
      PickOne(before.chain, events, oracles, n, picked, turns, turns');
    } else {
      PickNone(e, before, s, events, oracles, n, picked, turns, turns');
    }
  }

  lemma NothingOffered(chain: S.Chain, events: seq<Event>, oracles: seq<Oracle>)
    requires |events| == |oracles|
    ensures Offered(chain, events, oracles, 0, [], [])
  {
  }

  lemma ExtendedSame(turns: seq<Turn>, moves: seq<Act>)
    ensures SameTurns(turns, Extended(turns, moves))
  {
  }

  class Daemon {
    const env: Env
    const store: Adapter
    const checker: PolicyChecker
    /** The outside as the daemon meets it: clock, chain, and its own transactions. */
    var clock: Time
    var chain: S.Chain
    var sent: seq<Sent>
    /** Where the current event stands, and the acts since it was received. */
    ghost var worker: Worker
    ghost var begin: Sys
    ghost var acts: seq<Act>

    ghost function World(): Sys
      reads this, store
    {
      Sys(clock, chain, sent, store.Contents(), worker)
    }

    ghost predicate Valid()
      reads this, store
    {
      store.Valid() && checker.store == store && checker.cfg == env.cfg
    }

    /** The acts so far lead from the beginning to the present. */
    ghost predicate OnPath()
      reads this, store
    {
      RunFrom(env, begin, acts) == Some(World())
    }

    constructor (env: Env, store: Adapter, clock: Time, chain: S.Chain)
      requires store.Valid()
      ensures Valid() && this.env == env && this.store == store
      ensures World() == Sys(clock, chain, [], store.Contents(), Idle)
    {
      this.env, this.store := env, store;
      checker := new PolicyChecker(env.cfg, store);
      this.clock, this.chain, sent := clock, chain, [];
      worker, acts := Idle, [];
    }

    /** Book one effect: the world was `before`, the act leads to the present. */
    ghost method Book(act: Act, before: Sys)
      requires RunFrom(env, begin, acts) == Some(before) && Step(env, before, act) == Some(World())
      modifies `acts
      ensures OnPath() && acts == old(acts) + [act]
    {
      RunAppend(env, begin, acts, act);
      acts := acts + [act];
    }

    /** The rest of the world moves: time passes, others act on the chain, sent transactions are mined. */
    method Pause(moves: seq<Act>)
      requires Valid() && OnPath()
      modifies `clock, `chain, `sent, `acts
      ensures OnPath() && old(acts) <= acts
      ensures forall i :: |old(acts)| <= i < |acts| ==> Elsewhere(acts[i])
      ensures clock >= old(clock) && |sent| >= |old(sent)|
    {
      for k := 0 to |moves|
        invariant OnPath() && old(acts) <= acts
        invariant forall i :: |old(acts)| <= i < |acts| ==> Elsewhere(acts[i])
        invariant clock >= old(clock) && |sent| >= |old(sent)|
      {
        ghost var before := World();
        match moves[k]
        case Tick(now) =>
          if now >= clock { clock := now; Book(moves[k], before); }
        case Others(sender, call) =>
          chain := S.Next(env.crypto, chain, sender, call);
          Book(moves[k], before);
        case Mine(tx, ok, block) =>
          if tx < |sent| && sent[tx].receipt.None? {
            var call := MineCall(sent[tx], ok);
            var receipt := Receipt(S.Exec(env.crypto, chain, env.account, call).Ok?, block);
            chain := S.Next(env.crypto, chain, env.account, call);
            sent := sent[tx := sent[tx].(receipt := Some(receipt))];
            Book(moves[k], before);
          }
        case _ =>
      }
    }

    /** In the middle of handling `ev`: on the path, with this event's acts only. */
    ghost predicate Handling(ev: Event, o: Oracle)
      reads this, store
    {
      Valid() && OnPath() && HandlesOne(acts, ev, o)
    }

    /** Book an effect of the worker itself. */
    ghost method BookOwn(ev: Event, o: Oracle, act: Act, before: Sys)
      requires Valid() && RunFrom(env, begin, acts) == Some(before) && HandlesOne(acts, ev, o)
      requires Step(env, before, act) == Some(World())
      requires !act.Receive? && !act.Crash? && Answers(o, act)
      modifies `acts
      ensures Handling(ev, o)
    {
      Book(act, before);
    }

    method Wait(ev: Event, o: Oracle, i: nat)
      requires Handling(ev, o)
      modifies `clock, `chain, `sent, `acts
      ensures Handling(ev, o) && |sent| >= |old(sent)|
    {
      Pause(o.pause(i));
    }

    method RecordEvent(ev: Event, decision: Decision, o: Oracle)
      requires Handling(ev, o) && worker == Deciding(ev, decision)
      modifies this, store
      ensures Handling(ev, o) && worker == Idle && begin == old(begin)
    {
      Wait(ev, o, 7);
      ghost var before := World();
      var failure := store.RecordWithdrawEvent(ToDecisionRow(ev, decision), o.recordFails);
      assert store.Contents() == EventRecorded(before.tables, ToDecisionRow(ev, decision), o.recordFails);
      worker := Idle;
      BookOwn(ev, o, RecordDecision(o.recordFails), before);
    }

    method CheckGlobally(ev: Event, o: Oracle) returns (passed: bool)
      requires Handling(ev, o) && worker == Checking(ev)
      modifies this
      ensures Handling(ev, o) && begin == old(begin)
      ensures if passed then worker.CheckingUser? && worker.ev == ev else worker == Blocked(ev)
    {
      ghost var before := World();
      passed := false;
      if ev.amount > 0 && ev.user != ZERO {
        var failure := checker.CheckGlobalLimits(ev.token, ev.amount, clock, o.globalFaults);
        passed := failure.None?;
      }
      worker := if passed then CheckingUser(ev, clock) else Blocked(ev);
      BookOwn(ev, o, CheckGlobal(o.globalFaults), before);
    }

    /** The policy check: sanity and global limits, then, at a later clock reading, the limits of the user. */
    method RunCheck(ev: Event, o: Oracle) returns (passed: bool)
      requires Handling(ev, o) && worker == Checking(ev)
      modifies this
      ensures Handling(ev, o) && begin == old(begin)
      ensures if passed then worker.Cleared? && worker.ev == ev else worker == Blocked(ev)
    {
      passed := CheckGlobally(ev, o);
      if !passed { return; }
      Wait(ev, o, 1);
      ghost var before := World();
      var failure := checker.CheckUserLimits(ev.user, ev.token, ev.amount, clock, o.userFaults);
      passed := failure.None?;
      worker := if passed then Cleared(ev, worker.globalAt, clock) else Blocked(ev);
      BookOwn(ev, o, CheckUser(o.userFaults), before);
    }

    /** Send a transaction; on acceptance it joins those sent, unmined. */
    method Send(ev: Event, finalize: bool, o: Oracle) returns (tx: nat)
      requires Handling(ev, o) && if finalize then worker.Cleared? && worker.ev == ev else worker == Blocked(ev)
      modifies this
      ensures Handling(ev, o) && begin == old(begin)
      ensures !o.accepted ==> worker == Deciding(ev, Failed)
      ensures o.accepted && finalize ==> worker.AwaitingFinalize? && worker.ev == ev && worker.tx == tx
      ensures o.accepted && !finalize ==> worker == AwaitingReject(ev, tx)
    {
      Wait(ev, o, 2);
      ghost var before := World();
      tx := |sent|;
      if o.accepted {
        sent := sent + [Sent(ev.id, finalize, o.hash, None)];
        worker := if finalize then AwaitingFinalize(ev, worker.globalAt, worker.userAt, tx) else AwaitingReject(ev, tx);
      } else {
        worker := Deciding(ev, Failed);
      }
      BookOwn(ev, o, if finalize then SendFinalize(o.accepted, o.hash) else SendReject(o.accepted, o.hash), before);
    }

    /** Blocked by policy: reject on chain and record that, whatever the receipt says. */
    method RejectByPolicy(ev: Event, o: Oracle)
      requires Handling(ev, o) && worker == Blocked(ev)
      modifies this, store
      ensures Handling(ev, o) && worker == Idle && begin == old(begin)
    {
      var tx := Send(ev, false, o);
      if !o.accepted { RecordEvent(ev, Failed, o); return; }
      Wait(ev, o, 3);
      ghost var before := World();
      var mined := o.answered && tx < |sent| && sent[tx].receipt.Some?;
      worker := Deciding(ev, if mined then Rejected else Failed);
      BookOwn(ev, o, AwaitReject(o.answered), before);
      RecordEvent(ev, if mined then Rejected else Failed, o);
    }

    /** `processWithdrawal`: one event from its receipt to its decision. */
    method ProcessWithdrawal(ev: Event, o: Oracle)
      requires Valid() && worker == Idle && Genuine(chain, ev)
      modifies this, store
      ensures Handling(ev, o) && worker == Idle && begin == old(World())
    {
      begin, acts := World(), [];
      var known := store.HasWithdrawEvent(ev.id, o.knownFails);
      worker := if known then Idle else Checking(ev);
      Book(Receive(ev, o.knownFails), begin);
      if known { return; }

      Wait(ev, o, 0);
      var passed := RunCheck(ev, o);
      if !passed { RejectByPolicy(ev, o); return; }

      FinalizeAllowed(ev, o);
    }

    /** Allowed by policy: finalize on chain and wait; only a successful receipt counts. */
    method FinalizeAllowed(ev: Event, o: Oracle)
      requires Handling(ev, o) && worker.Cleared? && worker.ev == ev
      modifies this, store
      ensures Handling(ev, o) && worker == Idle && begin == old(begin)
    {
      var tx := Send(ev, true, o);
      if !o.accepted { RecordEvent(ev, Failed, o); return; }
      var receipt, hash := WaitMined(ev, tx, o);
      if receipt.None? || !receipt.value.succeeded {
        RecordEvent(ev, Failed, o);
      } else {
        SaveApproved(ev, receipt.value.blockNumber, hash, o);
      }
    }

    /** The wait ends with the receipt or, without one, with an error. */
    method WaitMined(ev: Event, tx: nat, o: Oracle) returns (receipt: Option<Receipt>, hash: Word)
      requires Handling(ev, o) && worker.AwaitingFinalize? && worker.ev == ev && worker.tx == tx
      modifies this
      ensures Handling(ev, o) && begin == old(begin)
      ensures if receipt.None? || !receipt.value.succeeded then worker == Deciding(ev, Failed)
              else worker.Mined? && worker.ev == ev && worker.hash == hash && worker.block == receipt.value.blockNumber
    {
      Wait(ev, o, 4);
      ghost var before := World();
      receipt, hash := None, 0;
      if o.answered && tx < |sent| { receipt, hash := sent[tx].receipt, sent[tx].hash; }
      if receipt.Some? && receipt.value.succeeded {
        worker := Mined(ev, worker.globalAt, worker.userAt, hash, receipt.value.blockNumber);
      } else {
        worker := Deciding(ev, Failed);
      }
      BookOwn(ev, o, AwaitFinalize(o.answered), before);
    }

    method StampRecord(ev: Event, block: nat, hash: Word, o: Oracle) returns (row: Withdrawal)
      requires Handling(ev, o) && worker.Mined? && worker.ev == ev && worker.hash == hash && worker.block == block
      modifies this
      ensures Handling(ev, o) && begin == old(begin)
      ensures worker.Stamped? && worker.ev == ev && worker.row == row
    {
      Wait(ev, o, 5);
      ghost var before := World();
      row := ToRow(ev, block, hash, clock);
      worker := Stamped(ev, worker.globalAt, worker.userAt, row);
      BookOwn(ev, o, Stamp, before);
    }

    /** Stamp the record with the clock, save it whatever comes of it, and record the approval. */
    method SaveApproved(ev: Event, block: nat, hash: Word, o: Oracle)
      requires Handling(ev, o) && worker.Mined? && worker.ev == ev && worker.hash == hash && worker.block == block
      modifies this, store
      ensures Handling(ev, o) && worker == Idle && begin == old(begin)
    {
      var row := StampRecord(ev, block, hash, o);
      SaveRecord(ev, row, o);
      RecordEvent(ev, Approved, o);
    }

    /** A row that cannot be saved is logged; the approval is recorded all the same. */
    method SaveRecord(ev: Event, row: Withdrawal, o: Oracle)
      requires Handling(ev, o) && worker.Stamped? && worker.ev == ev && worker.row == row
      modifies this, store
      ensures Handling(ev, o) && worker == Deciding(ev, Approved) && begin == old(begin)
    {
      Wait(ev, o, 6);
      ghost var before := World();
      var failure := checker.Record(row, o.saveFails);
      worker := Deciding(ev, Approved);
      BookOwn(ev, o, SaveRow(o.saveFails), before);
    }

    /** On start the daemon reads its cursor; an error is logged and the daemon starts from the head. */
    method ReadStart(readFails: bool) returns (position: Cursor)
      requires Valid()
      ensures position == StartPosition(store.Contents(), readFails)
      ensures readFails || "withdraw_started" !in store.cursors ==> position == Cursor(0, 0)
      ensures !readFails && "withdraw_started" in store.cursors
              && store.cursors["withdraw_started"].logIndex < 0x1_0000_0000 ==>
        position == store.cursors["withdraw_started"]
    {
      var failure;
      position, failure := store.GetCursor(STREAM, readFails);
    }

    /** Others act until the event arrives; then it is handled. What the contract has not emitted by then cannot
        arrive, and there is no turn for it. */
    method TakeUp(ev: Event, o: Oracle, ghost before: Sys, ghost turns: seq<Turn>)
      returns (served: bool, ghost turns': seq<Turn>)
      requires Valid() && worker == Idle && Sound(env, before, World()) && Serves(env, before, turns, World())
      modifies this, store
      ensures Valid() && worker == Idle && Sound(env, before, World()) && Serves(env, before, turns', World())
      ensures if served then |turns'| > 0 && SameTurns(turns, turns'[..|turns'| - 1])
                             && turns'[|turns'| - 1].ev == ev && turns'[|turns'| - 1].o == o
              else SameTurns(turns, turns') && !Genuine(chain, ev)
    {
      turns' := Await(o, before, turns);
      served := Genuine(chain, ev);
      if served {
        ProcessWithdrawal(ev, o);
        SoundAfter(env, before, begin, acts);
        ServesSnoc(env, before, turns', begin, Turn(ev, acts, o), World());
        turns' := turns' + [Turn(ev, acts, o)];
      }
    }

    method Await(o: Oracle, ghost before: Sys, ghost turns: seq<Turn>) returns (ghost turns': seq<Turn>)
      requires Valid() && worker == Idle && Sound(env, before, World()) && Serves(env, before, turns, World())
      modifies this
      ensures Valid() && worker == Idle && Sound(env, before, World()) && Serves(env, before, turns', World())
      ensures SameTurns(turns, turns')
    {
      begin, acts := World(), [];
      Pause(o.pause(8));
      SoundAfter(env, before, begin, acts);
      ServesPause(env, before, turns, begin, acts, World());
      ExtendedSame(turns, acts);
      turns' := Extended(turns, acts);
    }

    /** Since `before`, turns have been taken for what has arrived of the first n events offered. */
    ghost predicate HasServed(before: Sys, events: seq<Event>, oracles: seq<Oracle>, n: nat, picked: seq<nat>,
                              turns: seq<Turn>)
      reads this, store
      requires n <= |events| == |oracles|
    {
      && Valid() && worker == Idle
      && Sound(env, before, World()) && Serves(env, before, turns, World())
      && Offered(before.chain, events, oracles, n, picked, turns)
    }

    method ServeNext(events: seq<Event>, oracles: seq<Oracle>, n: nat, ghost before: Sys, ghost picked: seq<nat>,
                     ghost turns: seq<Turn>) returns (ghost picked': seq<nat>, ghost turns': seq<Turn>)
      requires n < |events| == |oracles| && HasServed(before, events, oracles, n, picked, turns)
      modifies this, store
      ensures HasServed(before, events, oracles, n + 1, picked', turns')
    {
      var served;
      served, turns' := TakeUp(events[n], oracles[n], before, turns);
      NextOffered(env, before, World(), events, oracles, n, picked, turns, turns', served);
      picked' := if served then picked + [n] else picked;
    }

    /** The event loop: strictly one event after the other, each taken up once the contract has emitted it, also while
        the loop is running. However the outside answers and moves, the limits and the exactly-once invariant are
        kept, and everything decided, recorded or paid stays. */
    method RunWorker(events: seq<Event>, oracles: seq<Oracle>) returns (ghost picked: seq<nat>, ghost turns: seq<Turn>)
      requires Valid() && worker == Idle && |oracles| == |events|
      requires Sound(env, World(), World())
      modifies this, store
      ensures Valid() && worker == Idle && Sound(env, old(World()), World())
      ensures Serves(env, old(World()), turns, World())
      ensures Offered(old(chain), events, oracles, |events|, picked, turns)
    {
      picked, turns := [], [];
      ghost var before := World();
      ServesNothing(env, before);
      NothingOffered(chain, events, oracles);
      for n := 0 to |events|
        invariant HasServed(before, events, oracles, n, picked, turns)
      {
        picked, turns := ServeNext(events, oracles, n, before, picked, turns);
      }
    }
  }
}
