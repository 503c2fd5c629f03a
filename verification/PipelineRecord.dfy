/** What the rows of both tables say: whose they are, what they repeat of the chain's events and of the transactions
    sent,
    and that every recorded approval is counted in the limit log unless the database refused the row. */
module PipelineRecord {
  import opened Evm
  import opened Decimal
  import opened Store
  import opened Pipeline
  import opened PipelineOnce
  import opened PipelinePay
  import S = SimpleSpec

  // ---- decision rows ----

  ghost predicate WasReceived(acts: seq<Act>, ev: Event) {
    exists k :: 0 <= k < |acts| && acts[k].Receive? && acts[k].ev == ev
  }

  /** The row copies the event. */
  predicate CopiesEvent(row: WithdrawEventModel, ev: Event) {
    && row.withdrawalId == ev.id && row.user == ev.user && row.token == ev.token
    && Parse(row.amount) == Some(ev.amount)
    && row.blockNumber == ev.blockNumber && row.txHash == ev.txHash && row.logIndex == ev.logIndex
  }

  /** The row has the user, the token and the amount that the contract announced under its id. */
  ghost predicate AsAnnounced(chain: S.Chain, row: WithdrawEventModel) {
    exists e :: e in chain.started && e.id == row.withdrawalId && e.user == row.user && e.token == row.token
                && Parse(row.amount) == Some(e.amount)
  }

  ghost predicate RowTrue(chain: S.Chain, acts: seq<Act>, row: WithdrawEventModel) {
    AsAnnounced(chain, row) && exists ev :: WasReceived(acts, ev) && CopiesEvent(row, ev)
  }

  /** Every decision row is true, and the event in hand was received. */
  ghost predicate RowsTrue(acts: seq<Act>, s: Sys) {
    && (s.worker.Idle? || WasReceived(acts, s.worker.ev))
    && forall i :: 0 <= i < |s.tables.events| ==> RowTrue(s.chain, acts, s.tables.events[i])
  }

  lemma ReceivedStays(acts: seq<Act>, act: Act)
    ensures forall ev :: WasReceived(acts, ev) ==> WasReceived(acts + [act], ev)
    ensures act.Receive? ==> WasReceived(acts + [act], act.ev)
  {
    forall ev | WasReceived(acts, ev) ensures WasReceived(acts + [act], ev) {
      var k :| 0 <= k < |acts| && acts[k].Receive? && acts[k].ev == ev;
      assert (acts + [act])[k] == acts[k];
    }
    assert (acts + [act])[|acts|] == act;
  }

  lemma RowStaysTrue(chain: S.Chain, acts: seq<Act>, row: WithdrawEventModel, chain': S.Chain, act: Act)
    requires RowTrue(chain, acts, row) && S.Later(chain, chain')
    ensures RowTrue(chain', acts + [act], row)
  {
    var e :| e in chain.started && e.id == row.withdrawalId && e.user == row.user && e.token == row.token
             && Parse(row.amount) == Some(e.amount);
    assert e in chain'.started;
    var ev :| WasReceived(acts, ev) && CopiesEvent(row, ev);
    ReceivedStays(acts, act);
    assert WasReceived(acts + [act], ev);
  }

  /** The row of an event that the contract has emitted is true. */
  lemma NewRowTrue(chain: S.Chain, acts: seq<Act>, ev: Event, d: Decision)
    requires Genuine(chain, ev) && WasReceived(acts, ev)
    ensures RowTrue(chain, acts, ToDecisionRow(ev, d)) && ToDecisionRow(ev, d).decision == d
  {
    RoundTrip(ev.amount);
    var i :| 0 <= i < |chain.started| && chain.started[i].id == ev.id && chain.started[i].user == ev.user
      && chain.started[i].token == ev.token && chain.started[i].amount == ev.amount;
    assert chain.started[i] in chain.started;
    assert CopiesEvent(ToDecisionRow(ev, d), ev);
  }

  /** What one step adds to the decision rows: nothing, or the row of the event in hand. */
  lemma StepRows(e: Env, s: Sys, act: Act)
    requires Step(e, s, act).Some?
    ensures var s' := Step(e, s, act).value;
      || s'.tables.events == s.tables.events
      || (s.worker.Deciding? && s'.worker.Idle? && s'.chain == s.chain
          && s'.tables.events == s.tables.events + [ToDecisionRow(s.worker.ev, s.worker.decision)])
    ensures var s' := Step(e, s, act).value;
      s'.worker.Idle? || (act.Receive? && s'.worker.ev == act.ev) || (!s.worker.Idle? && s'.worker.ev == s.worker.ev)
  {
  }

  lemma StepKeepsTrue(e: Env, s: Sys, acts: seq<Act>, act: Act)
    requires OnceInv(e, s) && RowsTrue(acts, s) && Step(e, s, act).Some?
    ensures RowsTrue(acts + [act], Step(e, s, act).value)
  {
    var s' := Step(e, s, act).value;
    StepKeepsOnce(e, s, act);
    StepRows(e, s, act);
    ReceivedStays(acts, act);
    forall i | 0 <= i < |s'.tables.events| ensures RowTrue(s'.chain, acts + [act], s'.tables.events[i]) {
      if i < |s.tables.events| {
        assert s'.tables.events[i] == s.tables.events[i];
        RowStaysTrue(s.chain, acts, s.tables.events[i], s'.chain, act);
      } else {
        NewRowTrue(s'.chain, acts + [act], s.worker.ev, s.worker.decision);
      }
    }
  }

  lemma {:induction false} RunKeepsTrue(e: Env, s: Sys, earlier: seq<Act>, acts: seq<Act>)
    requires OnceInv(e, s) && RowsTrue(earlier, s) && RunFrom(e, s, acts).Some?
    ensures RowsTrue(earlier + acts, RunFrom(e, s, acts).value)
    decreases |acts|
  {
    if acts == [] {
      assert earlier + acts == earlier;
    } else {
      StepKeepsTrue(e, s, earlier, acts[0]);
      StepKeepsOnce(e, s, acts[0]);
      RunKeepsTrue(e, Step(e, s, acts[0]).value, earlier + [acts[0]], acts[1..]);
      assert earlier + [acts[0]] + acts[1..] == earlier + acts;
    }
  }

  /** In every run each decision row has the user and the token that the contract announced under its id, its amount
      reads as the announced amount, and its block, transaction hash and log index are those of an event received in
      the run with that id. */
  lemma DecisionRowsTrue(e: Env, clock: Time, neodax: set<Address>, nitewatch: set<Address>, acts: seq<Act>, row: nat)
    requires RunFrom(e, Start(clock, neodax, nitewatch), acts).Some?
    requires row < |RunFrom(e, Start(clock, neodax, nitewatch), acts).value.tables.events|
    ensures var s := RunFrom(e, Start(clock, neodax, nitewatch), acts).value;
      var r := s.tables.events[row];
      && (exists x :: x in s.chain.started && x.id == r.withdrawalId && x.user == r.user && x.token == r.token
                      && Parse(r.amount) == Some(x.amount))
      && (exists ev :: WasReceived(acts, ev) && ev.id == r.withdrawalId && ev.blockNumber == r.blockNumber
                       && ev.txHash == r.txHash && ev.logIndex == r.logIndex)
  {
    var s0 := Start(clock, neodax, nitewatch);
    StartOnce(e, clock, neodax, nitewatch);
    RunKeepsTrue(e, s0, [], acts);
    assert [] + acts == acts;
    var s := RunFrom(e, s0, acts).value;
    assert RowTrue(s.chain, acts, s.tables.events[row]);
  }

  // ---- limit-log rows ----

  /** A successful receipt of a finalization of the id, with that hash and block. */
  ghost predicate SentAndMined(s: Sys, id: Word, hash: Word, block: nat) {
    exists i :: 0 <= i < |s.sent| && MinedAs(s.sent[i], id, hash, block)
  }

  predicate MinedAs(t: Sent, id: Word, hash: Word, block: nat) {
    t.id == id && t.finalize && t.hash == hash && t.receipt == Some(Receipt(true, block))
  }

  ghost predicate LogTrue(s: Sys) {
    && (forall i :: 0 <= i < |s.tables.log| ==>
          SentAndMined(s, s.tables.log[i].id, s.tables.log[i].txHash, s.tables.log[i].blockNumber))
    && match s.worker
       case Mined(ev, _, _, hash, block) => SentAndMined(s, ev.id, hash, block)
       case Stamped(ev, _, _, row) => row.id == ev.id && SentAndMined(s, row.id, row.txHash, row.blockNumber)
       case _ => true
  }

  /** Sent transactions keep their id, kind and hash, and their receipt once they have one. */
  lemma SentStays(e: Env, s: Sys, act: Act)
    requires Step(e, s, act).Some?
    ensures forall id, hash, block :: SentAndMined(s, id, hash, block) ==>
      SentAndMined(Step(e, s, act).value, id, hash, block)
  {
    var s' := Step(e, s, act).value;
    forall id, hash, block | SentAndMined(s, id, hash, block) ensures SentAndMined(s', id, hash, block) {
      var i :| 0 <= i < |s.sent| && MinedAs(s.sent[i], id, hash, block);
      assert s'.sent[i] == s.sent[i];
    }
  }

  lemma StepKeepsLog(e: Env, s: Sys, act: Act)
    requires OnceInv(e, s) && LogTrue(s) && Step(e, s, act).Some?
    ensures LogTrue(Step(e, s, act).value)
  {
    SentStays(e, s, act);
    if act.AwaitFinalize? {
      WaitKeepsLog(e, s, act.answered);
    } else if act.SaveRow? {
      SaveKeepsLog(s, s.worker.row, act.dbFails);
    } else {
      assert Step(e, s, act).value.tables.log == s.tables.log;
    }
  }

  lemma WaitKeepsLog(e: Env, s: Sys, answered: bool)
    requires OnceInv(e, s) && LogTrue(s) && WorkerStep(e, s, AwaitFinalize(answered)).Some?
    ensures LogTrue(WorkerStep(e, s, AwaitFinalize(answered)).value)
  {
    var s' := WorkerStep(e, s, AwaitFinalize(answered)).value;
    assert s'.sent == s.sent;
    assert forall id, hash, block :: SentAndMined(s, id, hash, block) ==> SentAndMined(s', id, hash, block);
    if s'.worker.Mined? {
      assert MinedAs(s'.sent[s.worker.tx], s.worker.ev.id, s'.worker.hash, s'.worker.block);
    }
  }

  lemma SaveKeepsLog(s: Sys, row: Withdrawal, dbFails: bool)
    requires LogTrue(s) && s.worker.Stamped? && s.worker.row == row
    ensures LogTrue(s.(tables := Saved(s.tables, row, dbFails), worker := Deciding(s.worker.ev, Approved)))
  {
    var s' := s.(tables := Saved(s.tables, row, dbFails), worker := Deciding(s.worker.ev, Approved));
    assert forall id, hash, block :: SentAndMined(s, id, hash, block) ==> SentAndMined(s', id, hash, block);
  }

  lemma {:induction false} RunKeepsLog(e: Env, s: Sys, acts: seq<Act>)
    requires OnceInv(e, s) && LogTrue(s) && RunFrom(e, s, acts).Some?
    ensures LogTrue(RunFrom(e, s, acts).value)
    decreases |acts|
  {
    if acts != [] {
      StepKeepsLog(e, s, acts[0]);
      StepKeepsOnce(e, s, acts[0]);
      RunKeepsLog(e, Step(e, s, acts[0]).value, acts[1..]);
    }
  }

  /** In every run each row of the limit log has the user, the token and the amount that the contract announced under
      its
      id, and the hash and the block of a finalization of it that the daemon sent and that succeeded. */
  lemma LogRowsTrue(e: Env, clock: Time, neodax: set<Address>, nitewatch: set<Address>, acts: seq<Act>, row: nat)
    requires RunFrom(e, Start(clock, neodax, nitewatch), acts).Some?
    requires row < |RunFrom(e, Start(clock, neodax, nitewatch), acts).value.tables.log|
    ensures var s := RunFrom(e, Start(clock, neodax, nitewatch), acts).value;
      var w := s.tables.log[row];
      && (exists x :: x in s.chain.started && x.id == w.id && x.user == w.user && x.token == w.token
                      && x.amount == w.amount)
      && (exists i :: 0 <= i < |s.sent| && s.sent[i].id == w.id && s.sent[i].finalize && s.sent[i].hash == w.txHash
                      && s.sent[i].receipt == Some(Receipt(true, w.blockNumber)))
  {
    var s0 := Start(clock, neodax, nitewatch);
    StartOnce(e, clock, neodax, nitewatch);
    RunKeepsOnce(e, s0, acts);
    RunKeepsLog(e, s0, acts);
    var s := RunFrom(e, s0, acts).value;
    var w := s.tables.log[row];
    LoggedAsStarted(e, s, w);
    assert SentAndMined(s, w.id, w.txHash, w.blockNumber);
  }

  lemma LoggedAsStarted(e: Env, s: Sys, w: Withdrawal)
    requires OnceInv(e, s) && Paid(s.chain, w.id, w.user, w.token, w.amount)
    ensures exists x :: x in s.chain.started && x.id == w.id && x.user == w.user && x.token == w.token
                        && x.amount == w.amount
  {
    var p :| p in s.chain.payouts && p.id == w.id && p.user == w.user && p.token == w.token && p.amount == w.amount;
    assert S.Exists(s.chain, p.id);
    var x :| x in s.chain.started && x.id == p.id;
  }

  /** A record is stamped with the clock of that moment and repeats the event and the receipt. */
  lemma StampExact(e: Env, s: Sys)
    requires s.worker.Mined?
    ensures var ev := s.worker.ev;
      Step(e, s, Stamp) == Some(s.(worker := Stamped(ev, s.worker.globalAt, s.worker.userAt,
        Withdrawal(ev.id, ev.user, ev.token, ev.amount, s.worker.block, s.worker.hash, s.clock))))
  {
  }

  // ---- every approval is counted ----

  /** The database has refused no limit-log row. */
  ghost predicate NoneRefused(acts: seq<Act>) {
    forall k :: 0 <= k < |acts| ==> acts[k] != SaveRow(true)
  }

  predicate Logged(log: seq<Withdrawal>, id: Word) {
    exists i :: 0 <= i < |log| && log[i].id == id
  }

  ghost predicate ApprovalsLogged(s: Sys) {
    && (forall i :: 0 <= i < |s.tables.events| && s.tables.events[i].decision == Approved ==>
          Logged(s.tables.log, s.tables.events[i].withdrawalId))
    && (s.worker.Deciding? && s.worker.decision == Approved ==> Logged(s.tables.log, s.worker.ev.id))
  }

  lemma SavedIsLogged(t: Tables, w: Withdrawal)
    ensures Logged(Saved(t, w, false).log, w.id)
    ensures forall id :: Logged(t.log, id) ==> Logged(Saved(t, w, false).log, id)
    ensures Saved(t, w, false).events == t.events
  {
    var log := Saved(t, w, false).log;
    if !HasRow(t.log, w.id) {
      assert log[|t.log|].id == w.id;
    }
    forall id | Logged(t.log, id) ensures Logged(log, id) {
      var i :| 0 <= i < |t.log| && t.log[i].id == id;
      assert log[i].id == id;
    }
  }

  lemma StepKeepsLogged(e: Env, s: Sys, act: Act)
    requires ApprovalsLogged(s) && Step(e, s, act).Some? && act != SaveRow(true)
    requires OnceInv(e, s)
    ensures ApprovalsLogged(Step(e, s, act).value)
  {
    var s' := Step(e, s, act).value;
    if act.SaveRow? {
      SavedIsLogged(s.tables, s.worker.row);
      assert s.worker.row.id == s.worker.ev.id;
    } else {
      assert s'.tables.log == s.tables.log;
      StepRows(e, s, act);
    }
  }

  lemma {:induction false} RunKeepsLogged(e: Env, s: Sys, acts: seq<Act>)
    requires OnceInv(e, s) && ApprovalsLogged(s) && NoneRefused(acts) && RunFrom(e, s, acts).Some?
    ensures ApprovalsLogged(RunFrom(e, s, acts).value)
    decreases |acts|
  {
    if acts != [] {
      StepKeepsLogged(e, s, acts[0]);
      StepKeepsOnce(e, s, acts[0]);
      assert NoneRefused(acts[1..]);
      RunKeepsLogged(e, Step(e, s, acts[0]).value, acts[1..]);
    }
  }

  /** In every run in which the database refuses no limit-log row, every row "approved" has its row in the limit log,
      with
      the user, the token and the amount that the contract announced. */
  lemma ApprovedIsCounted(e: Env, clock: Time, neodax: set<Address>, nitewatch: set<Address>, acts: seq<Act>, row: nat)
    requires RunFrom(e, Start(clock, neodax, nitewatch), acts).Some? && NoneRefused(acts)
    requires var events := RunFrom(e, Start(clock, neodax, nitewatch), acts).value.tables.events;
      row < |events| && events[row].decision == Approved
    ensures var s := RunFrom(e, Start(clock, neodax, nitewatch), acts).value;
      exists i, x :: 0 <= i < |s.tables.log| && s.tables.log[i].id == s.tables.events[row].withdrawalId
                     && x in s.chain.started && x.id == s.tables.log[i].id && x.user == s.tables.log[i].user
                     && x.token == s.tables.log[i].token && x.amount == s.tables.log[i].amount
  {
    var s0 := Start(clock, neodax, nitewatch);
    StartOnce(e, clock, neodax, nitewatch);
    RunKeepsOnce(e, s0, acts);
    RunKeepsLogged(e, s0, acts);
    var s := RunFrom(e, s0, acts).value;
    var i :| 0 <= i < |s.tables.log| && s.tables.log[i].id == s.tables.events[row].withdrawalId;
    LogRowsTrue(e, clock, neodax, nitewatch, acts, i);
  }

  // ---- receipts ----

  /** A mined transaction gets the block it is in, and a receipt that says exactly whether it took effect: a
      finalization
      whether it paid, a rejection whether it closed. */
  lemma ReceiptExact(e: Env, s: Sys, tx: nat, ok: bool, block: nat)
    requires OnceInv(e, s) && Step(e, s, Mine(tx, ok, block)).Some?
    ensures var s', t := Step(e, s, Mine(tx, ok, block)).value, s.sent[tx];
      && s'.sent[tx].receipt.Some? && s'.sent[tx].receipt.value.blockNumber == block
      && (s'.sent[tx].receipt.value.succeeded <==>
            if t.finalize then PaidId(s'.chain, t.id) && !PaidId(s.chain, t.id)
            else S.Closed(t.id, false) in s'.chain.closed && S.Closed(t.id, false) !in s.chain.closed)
  {
    var s', t := Step(e, s, Mine(tx, ok, block)).value, s.sent[tx];
    MinedReceiptTrue(e, s.chain, t, ok, block);
    if t.finalize && PaidId(s.chain, t.id) {
      var p :| p in s.chain.payouts && p.id == t.id;
      assert S.Exists(s.chain, p.id) && s.chain.requests[p.id].finalized;
    }
  }
}
