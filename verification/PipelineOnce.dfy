/** Exactly-once effect of the daemon over all runs: interleavings, crashes, redeliveries, transactions mined
    late, database refusals. */
module PipelineOnce {
  import opened Evm
  import opened Store
  import opened Checker
  import opened Pipeline
  import S = SimpleSpec

  /** The chain has paid this withdrawal, to this user, in this token, with this amount. */
  ghost predicate Paid(chain: S.Chain, id: Word, user: Address, token: Address, amount: int) {
    exists p :: p in chain.payouts && p.id == id && p.user == user && p.token == token && p.amount == amount
  }

  ghost predicate PaidId(chain: S.Chain, id: Word) {
    exists p :: p in chain.payouts && p.id == id
  }

  ghost predicate PaidEvent(chain: S.Chain, ev: Event) {
    Paid(chain, ev.id, ev.user, ev.token, ev.amount)
  }

  ghost predicate UniqueRows(log: seq<Withdrawal>) {
    forall i, j :: 0 <= i < j < |log| ==> log[i].id != log[j].id
  }

  ghost predicate UniqueDecisions(events: seq<WithdrawEventModel>) {
    forall i, j :: 0 <= i < j < |events| ==> events[i].withdrawalId != events[j].withdrawalId
  }

  /** The sent transaction the worker waits for is the one for its event. */
  ghost predicate WorkerOwns(s: Sys) {
    match s.worker
    case Idle => true
    case AwaitingFinalize(ev, _, _, tx) =>
      Genuine(s.chain, ev) && tx < |s.sent| && s.sent[tx].id == ev.id && s.sent[tx].finalize
    case Mined(ev, _, _, _, _) => Genuine(s.chain, ev) && PaidEvent(s.chain, ev)
    case Stamped(ev, _, _, row) =>
      && Genuine(s.chain, ev) && PaidEvent(s.chain, ev)
      && row.id == ev.id && row.user == ev.user && row.token == ev.token && row.amount == ev.amount
    case Deciding(ev, d) => Genuine(s.chain, ev) && (d == Approved ==> PaidEvent(s.chain, ev))
    case w => Genuine(s.chain, w.ev)
  }

  /** A successful receipt tells the truth: of a finalization that the id was paid, of a rejection that it was
      closed without payment. */
  ghost predicate ReceiptTrue(chain: S.Chain, t: Sent) {
    t.receipt.Some? && t.receipt.value.succeeded ==>
      if t.finalize then PaidId(chain, t.id) else S.Closed(t.id, false) in chain.closed
  }

  ghost predicate ReceiptsTrue(s: Sys) {
    forall i :: 0 <= i < |s.sent| ==> ReceiptTrue(s.chain, s.sent[i])
  }

  ghost predicate RowsPaid(s: Sys) {
    forall i :: 0 <= i < |s.tables.log| ==>
      Paid(s.chain, s.tables.log[i].id, s.tables.log[i].user, s.tables.log[i].token, s.tables.log[i].amount)
  }

  ghost predicate ApprovalsPaid(s: Sys) {
    forall i :: 0 <= i < |s.tables.events| && s.tables.events[i].decision == Approved ==>
      PaidId(s.chain, s.tables.events[i].withdrawalId)
  }

  ghost predicate OnceInv(e: Env, s: Sys) {
    && S.ChainInv(e.crypto, s.chain)
    && UniqueRows(s.tables.log) && UniqueDecisions(s.tables.events)
    && WorkerOwns(s) && ReceiptsTrue(s) && RowsPaid(s) && ApprovalsPaid(s)
  }

  // ---- the chain moves ----

  /** Whatever the chain does, what was started and paid stays started and paid. */
  lemma ChainMoves(e: Env, s: Sys, sender: Address, call: S.ChainCall, chain: S.Chain)
    requires OnceInv(e, s) && chain == S.Next(e.crypto, s.chain, sender, call)
    ensures OnceInv(e, s.(chain := chain))
    ensures S.Later(s.chain, chain)
  {
    S.ExecInv(e.crypto, s.chain, sender, call);
    S.ExecLater(e.crypto, s.chain, sender, call);
    LaterKeeps(e, s, chain);
  }

  lemma LaterKeeps(e: Env, s: Sys, chain: S.Chain)
    requires OnceInv(e, s) && S.Later(s.chain, chain) && S.ChainInv(e.crypto, chain)
    ensures OnceInv(e, s.(chain := chain))
  {
    var s' := s.(chain := chain);
    LaterFacts(s.chain, chain);
    assert WorkerOwns(s');
    assert ReceiptsTrue(s') by {
      forall i | 0 <= i < |s.sent| ensures ReceiptTrue(chain, s.sent[i]) {
        assert ReceiptTrue(s.chain, s.sent[i]);
      }
    }
  }

  /** What an earlier chain says stays true. */
  lemma LaterFacts(chain: S.Chain, chain': S.Chain)
    requires S.Later(chain, chain')
    ensures forall ev :: Genuine(chain, ev) ==> Genuine(chain', ev)
    ensures forall id, user, token, amount :: Paid(chain, id, user, token, amount) ==>
      Paid(chain', id, user, token, amount)
    ensures forall id :: PaidId(chain, id) ==> PaidId(chain', id)
    ensures forall e :: e in chain.closed ==> e in chain'.closed
  {
    assert forall p :: p in chain.payouts ==> p in chain'.payouts;
    assert forall i :: 0 <= i < |chain.started| ==> chain'.started[i] == chain.started[i];
  }

  lemma MineKeeps(e: Env, s: Sys, tx: nat, ok: bool, block: nat)
    requires OnceInv(e, s) && Step(e, s, Mine(tx, ok, block)).Some?
    ensures OnceInv(e, Step(e, s, Mine(tx, ok, block)).value)
    ensures S.Later(s.chain, Step(e, s, Mine(tx, ok, block)).value.chain)
  {
    var s' := Step(e, s, Mine(tx, ok, block)).value;
    ChainMoves(e, s, e.account, MineCall(s.sent[tx], ok), s'.chain);
    MinedReceiptTrue(e, s.chain, s.sent[tx], ok, block);
  }

  lemma MinedReceiptTrue(e: Env, chain: S.Chain, t: Sent, ok: bool, block: nat)
    ensures ReceiptTrue(S.Next(e.crypto, chain, e.account, MineCall(t, ok)),
                        t.(receipt := Some(Receipt(S.Exec(e.crypto, chain, e.account, MineCall(t, ok)).Ok?, block))))
  {
    var chain' := S.Next(e.crypto, chain, e.account, MineCall(t, ok));
    if S.Exec(e.crypto, chain, e.account, MineCall(t, ok)).Ok? {
      if t.finalize {
        assert chain'.payouts[|chain.payouts|] in chain'.payouts;
      } else {
        assert chain'.closed[|chain.closed|] in chain'.closed;
      }
    }
  }

  // ---- the worker moves ----

  /** A successful receipt means the chain paid the very event the worker is handling. */
  lemma ReceiptMeansPaid(e: Env, s: Sys, ev: Event)
    requires OnceInv(e, s) && Genuine(s.chain, ev) && PaidId(s.chain, ev.id)
    ensures PaidEvent(s.chain, ev)
  {
    var p :| p in s.chain.payouts && p.id == ev.id;
    var i :| 0 <= i < |s.chain.started| && s.chain.started[i].id == ev.id && s.chain.started[i].user == ev.user
      && s.chain.started[i].token == ev.token && s.chain.started[i].amount == ev.amount;
    assert s.chain.started[i] in s.chain.started;
  }

  lemma SaveRowKeeps(e: Env, s: Sys, row: Withdrawal, dbFails: bool)
    requires OnceInv(e, s) && s.worker.Stamped? && s.worker.row == row
    ensures var s' := s.(tables := Saved(s.tables, row, dbFails), worker := Deciding(s.worker.ev, Approved));
      OnceInv(e, s')
  {
    assert Paid(s.chain, row.id, row.user, row.token, row.amount);
  }

  lemma RecordKeeps(e: Env, s: Sys, ev: Event, d: Decision, dbFails: bool)
    requires OnceInv(e, s) && s.worker == Deciding(ev, d)
    ensures var s' := s.(tables := EventRecorded(s.tables, ToDecisionRow(ev, d), dbFails), worker := Idle);
      OnceInv(e, s')
  {
    if d == Approved {
      var p :| p in s.chain.payouts && p.id == ev.id && p.user == ev.user && p.token == ev.token &&
        p.amount == ev.amount;
      assert PaidId(s.chain, ev.id);
    }
  }

  /** A step that moves only the worker. */
  lemma WorkerOnlyKeeps(e: Env, s: Sys, w: Worker)
    requires OnceInv(e, s) && WorkerOwns(s.(worker := w))
    ensures OnceInv(e, s.(worker := w))
  {
  }

  lemma AwaitFinalizeKeeps(e: Env, s: Sys, answered: bool)
    requires OnceInv(e, s) && WorkerStep(e, s, AwaitFinalize(answered)).Some?
    ensures OnceInv(e, WorkerStep(e, s, AwaitFinalize(answered)).value)
  {
    var ev, s' := s.worker.ev, WorkerStep(e, s, AwaitFinalize(answered)).value;
    if s'.worker.Mined? {
      assert ReceiptTrue(s.chain, s.sent[s.worker.tx]);
      ReceiptMeansPaid(e, s, ev);
    }
    WorkerOnlyKeeps(e, s, s'.worker);
  }

  lemma SendKeeps(e: Env, s: Sys, t: Sent, w: Worker)
    requires OnceInv(e, s) && t.receipt.None?
    requires WorkerOwns(s.(sent := s.sent + [t], worker := w))
    ensures OnceInv(e, s.(sent := s.sent + [t], worker := w))
  {
  }

  lemma SendStepKeeps(e: Env, s: Sys, act: Act)
    requires OnceInv(e, s) && (act.SendFinalize? || act.SendReject?) && WorkerStep(e, s, act).Some?
    ensures OnceInv(e, WorkerStep(e, s, act).value)
  {
    var s' := WorkerStep(e, s, act).value;
    if act.accepted {
      SendKeeps(e, s, s'.sent[|s.sent|], s'.worker);
    } else {
      WorkerOnlyKeeps(e, s, s'.worker);
    }
  }

  ghost predicate Quiet(act: Act) {
    act.Receive? || act.CheckGlobal? || act.CheckUser? || act.Stamp? || act.AwaitReject?
  }

  lemma QuietMovesWorker(e: Env, s: Sys, act: Act)
    requires OnceInv(e, s) && Quiet(act) && WorkerStep(e, s, act).Some?
    ensures var s' := WorkerStep(e, s, act).value; s' == s.(worker := s'.worker) && WorkerOwns(s')
  {
  }

  lemma WorkerKeeps(e: Env, s: Sys, act: Act)
    requires OnceInv(e, s) && WorkerStep(e, s, act).Some?
    ensures OnceInv(e, WorkerStep(e, s, act).value)
  {
    if Quiet(act) {
      QuietMovesWorker(e, s, act);
      WorkerOnlyKeeps(e, s, WorkerStep(e, s, act).value.worker);
    } else {
      match act
      case SendFinalize(_, _) => SendStepKeeps(e, s, act);
      case SendReject(_, _) => SendStepKeeps(e, s, act);
      case AwaitFinalize(answered) => AwaitFinalizeKeeps(e, s, answered);
      case SaveRow(dbFails) => SaveRowKeeps(e, s, s.worker.row, dbFails);
      case RecordDecision(dbFails) => RecordKeeps(e, s, s.worker.ev, s.worker.decision, dbFails);
      case _ =>
    }
  }

  ghost predicate Grows(s: Sys, s': Sys) {
    S.Later(s.chain, s'.chain) && s.tables.events <= s'.tables.events && s.tables.log <= s'.tables.log
  }

  lemma WorkerGrows(e: Env, s: Sys, act: Act)
    requires WorkerStep(e, s, act).Some?
    ensures Grows(s, WorkerStep(e, s, act).value)
  {
  }

  lemma StepKeepsOnce(e: Env, s: Sys, act: Act)
    requires OnceInv(e, s) && Step(e, s, act).Some?
    ensures OnceInv(e, Step(e, s, act).value) && Grows(s, Step(e, s, act).value)
  {
    match act
    case Tick(_) =>
    case Others(sender, call) => ChainMoves(e, s, sender, call, Step(e, s, act).value.chain);
    case Mine(tx, ok, block) => MineKeeps(e, s, tx, ok, block);
    case Crash =>
    case _ =>
      assert Step(e, s, act) == WorkerStep(e, s, act);
      WorkerKeeps(e, s, act);
      WorkerGrows(e, s, act);
  }

  lemma {:induction false} RunKeepsOnce(e: Env, s: Sys, acts: seq<Act>)
    requires OnceInv(e, s) && RunFrom(e, s, acts).Some?
    ensures OnceInv(e, RunFrom(e, s, acts).value) && Grows(s, RunFrom(e, s, acts).value)
    decreases |acts|
  {
    if acts != [] {
      StepKeepsOnce(e, s, acts[0]);
      RunKeepsOnce(e, Step(e, s, acts[0]).value, acts[1..]);
    }
  }

  lemma StartOnce(e: Env, clock: Time, neodax: set<Address>, nitewatch: set<Address>)
    ensures OnceInv(e, Start(clock, neodax, nitewatch))
  {
    S.GenesisInv(e.crypto, neodax, nitewatch);
  }

  /** Exactly-once effect. In every run from an empty database and chain: each withdrawal id is paid at most
      once; each has at most one decision row and at most one limit-log row; a row in the limit log stands for
      a payout with the same user, token and amount; and only paid withdrawals are recorded as approved. */
  lemma ExactlyOnce(e: Env, clock: Time, neodax: set<Address>, nitewatch: set<Address>, acts: seq<Act>)
    requires RunFrom(e, Start(clock, neodax, nitewatch), acts).Some?
    ensures var s := RunFrom(e, Start(clock, neodax, nitewatch), acts).value;
      && S.UniquePayouts(s.chain) && UniqueDecisions(s.tables.events) && UniqueRows(s.tables.log)
      && RowsPaid(s) && ApprovalsPaid(s)
  {
    StartOnce(e, clock, neodax, nitewatch);
    RunKeepsOnce(e, Start(clock, neodax, nitewatch), acts);
  }

  /** What a run has decided, recorded or paid stays: later decision rows, limit-log rows and payouts are
      appended after the ones that are there, and none is ever changed. */
  lemma NothingIsRevised(e: Env, clock: Time, neodax: set<Address>, nitewatch: set<Address>, acts: seq<Act>,
                         more: seq<Act>)
    requires RunFrom(e, Start(clock, neodax, nitewatch), acts).Some?
    requires RunFrom(e, RunFrom(e, Start(clock, neodax, nitewatch), acts).value, more).Some?
    ensures var s := RunFrom(e, Start(clock, neodax, nitewatch), acts).value;
      var s' := RunFrom(e, s, more).value;
      s.tables.events <= s'.tables.events && s.tables.log <= s'.tables.log && s.chain.payouts <= s'.chain.payouts
  {
    StartOnce(e, clock, neodax, nitewatch);
    RunKeepsOnce(e, Start(clock, neodax, nitewatch), acts);
    RunKeepsOnce(e, RunFrom(e, Start(clock, neodax, nitewatch), acts).value, more);
  }

  /** A rejection the chain has accepted is final: in no run is that id ever paid. */
  lemma RejectionIsFinal(e: Env, clock: Time, neodax: set<Address>, nitewatch: set<Address>, acts: seq<Act>, i: nat)
    requires RunFrom(e, Start(clock, neodax, nitewatch), acts).Some?
    requires var sent := RunFrom(e, Start(clock, neodax, nitewatch), acts).value.sent;
      i < |sent| && !sent[i].finalize && sent[i].receipt.Some? && sent[i].receipt.value.succeeded
    ensures var s := RunFrom(e, Start(clock, neodax, nitewatch), acts).value; !PaidId(s.chain, s.sent[i].id)
  {
    StartOnce(e, clock, neodax, nitewatch);
    RunKeepsOnce(e, Start(clock, neodax, nitewatch), acts);
    var s := RunFrom(e, Start(clock, neodax, nitewatch), acts).value;
    assert ReceiptTrue(s.chain, s.sent[i]);
    var id := s.sent[i].id;
    assert S.Closed(id, false) in s.chain.closed;
    assert S.Closed(id, !false) !in s.chain.closed;
  }
}
