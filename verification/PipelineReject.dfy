/** What a decision row "rejected" says about the chain. The daemon records it whatever the receipt of its
    rejection, so the row alone does not mean that the withdrawal was not paid. */
module PipelineReject {
  import opened Evm
  import opened Store
  import opened Pipeline
  import opened PipelineOnce
  import opened PipelinePay
  import S = SimpleSpec

  /** A rejection of the id that the daemon sent has been mined. */
  ghost predicate RejectionMined(s: Sys, id: Word) {
    exists i :: 0 <= i < |s.sent| && s.sent[i].id == id && !s.sent[i].finalize && s.sent[i].receipt.Some?
  }

  ghost predicate SentStarted(s: Sys) {
    forall i :: 0 <= i < |s.sent| ==> IdStarted(s.chain, s.sent[i].id)
  }

  ghost predicate RejectionsMined(s: Sys) {
    forall i :: 0 <= i < |s.tables.events| && s.tables.events[i].decision == Rejected ==>
      RejectionMined(s, s.tables.events[i].withdrawalId)
  }

  ghost predicate WorkerRejects(s: Sys) {
    match s.worker
    case AwaitingReject(ev, tx) => tx < |s.sent| && s.sent[tx].id == ev.id && !s.sent[tx].finalize
    case Deciding(ev, d) => d == Rejected ==> RejectionMined(s, ev.id)
    case _ => true
  }

  /** Every transaction sent is about a started id, and every row "rejected" stands for a mined rejection. */
  ghost predicate RejectInv(s: Sys) {
    SentStarted(s) && RejectionsMined(s) && WorkerRejects(s)
  }

  // ---- every step keeps it ----

  lemma ChainKeepsReject(s: Sys, chain: S.Chain)
    requires RejectInv(s) && S.Later(s.chain, chain)
    ensures RejectInv(s.(chain := chain))
  {
    assert forall e :: e in s.chain.started ==> e in chain.started;
    assert forall id :: IdStarted(s.chain, id) ==> IdStarted(chain, id);
    assert forall id :: RejectionMined(s, id) ==> RejectionMined(s.(chain := chain), id);
  }

  lemma ReceiptKeepsReject(s: Sys, tx: nat, receipt: Receipt)
    requires RejectInv(s) && tx < |s.sent|
    ensures RejectInv(s.(sent := s.sent[tx := s.sent[tx].(receipt := Some(receipt))]))
  {
    var s' := s.(sent := s.sent[tx := s.sent[tx].(receipt := Some(receipt))]);
    forall id | RejectionMined(s, id) ensures RejectionMined(s', id) {
      var i :| 0 <= i < |s.sent| && s.sent[i].id == id && !s.sent[i].finalize && s.sent[i].receipt.Some?;
      assert s'.sent[i].id == id && !s'.sent[i].finalize && s'.sent[i].receipt.Some?;
    }
  }

  lemma SendKeepsReject(s: Sys, t: Sent, w: Worker)
    requires RejectInv(s) && IdStarted(s.chain, t.id) && WorkerRejects(s.(sent := s.sent + [t], worker := w))
    ensures RejectInv(s.(sent := s.sent + [t], worker := w))
  {
    var s' := s.(sent := s.sent + [t], worker := w);
    forall id | RejectionMined(s, id) ensures RejectionMined(s', id) {
      var i :| 0 <= i < |s.sent| && s.sent[i].id == id && !s.sent[i].finalize && s.sent[i].receipt.Some?;
      assert s'.sent[i] == s.sent[i];
    }
  }

  /** A step that leaves the transactions and the chain alone. */
  lemma DaemonKeepsReject(s: Sys, s': Sys)
    requires RejectInv(s) && s'.sent == s.sent && s'.chain == s.chain
    requires WorkerRejects(s') && RejectionsMined(s')
    ensures RejectInv(s')
  {
  }

  lemma RecordKeepsReject(s: Sys, ev: Event, d: Decision, dbFails: bool)
    requires RejectInv(s) && s.worker == Deciding(ev, d)
    ensures RejectInv(s.(tables := EventRecorded(s.tables, ToDecisionRow(ev, d), dbFails), worker := Idle))
  {
    var s' := s.(tables := EventRecorded(s.tables, ToDecisionRow(ev, d), dbFails), worker := Idle);
    forall id | RejectionMined(s, id) ensures RejectionMined(s', id) {
      var i :| 0 <= i < |s.sent| && s.sent[i].id == id && !s.sent[i].finalize && s.sent[i].receipt.Some?;
      assert s'.sent[i] == s.sent[i];
    }
  }

  /** The worker's steps that neither send nor record. */
  lemma QuietKeepsReject(e: Env, s: Sys, act: Act)
    requires RejectInv(s) && WorkerStep(e, s, act).Some?
    requires !act.SendFinalize? && !act.SendReject? && !act.RecordDecision?
    ensures RejectInv(WorkerStep(e, s, act).value)
  {
    var s' := WorkerStep(e, s, act).value;
    assert s'.sent == s.sent && s'.chain == s.chain && s'.tables.events == s.tables.events;
    assert forall id :: RejectionMined(s, id) <==> RejectionMined(s', id);
    if act.AwaitReject? && s'.worker.decision == Rejected {
      assert s.sent[s.worker.tx].receipt.Some?;
      assert RejectionMined(s, s.worker.ev.id);
    }
    DaemonKeepsReject(s, s');
  }

  lemma SendStepKeepsReject(e: Env, s: Sys, act: Act)
    requires OnceInv(e, s) && RejectInv(s) && WorkerStep(e, s, act).Some?
    requires act.SendFinalize? || act.SendReject?
    ensures RejectInv(WorkerStep(e, s, act).value)
  {
    var s' := WorkerStep(e, s, act).value;
    GenuineStarted(s.chain, s.worker.ev);
    if act.accepted {
      SendKeepsReject(s, s'.sent[|s.sent|], s'.worker);
    } else {
      assert forall id :: RejectionMined(s, id) <==> RejectionMined(s', id);
      DaemonKeepsReject(s, s');
    }
  }

  lemma MineKeepsReject(e: Env, s: Sys, tx: nat, ok: bool, block: nat)
    requires RejectInv(s) && Step(e, s, Mine(tx, ok, block)).Some?
    ensures RejectInv(Step(e, s, Mine(tx, ok, block)).value)
  {
    var s' := Step(e, s, Mine(tx, ok, block)).value;
    S.ExecLater(e.crypto, s.chain, e.account, MineCall(s.sent[tx], ok));
    ChainKeepsReject(s, s'.chain);
    ReceiptKeepsReject(s.(chain := s'.chain), tx, s'.sent[tx].receipt.value);
  }

  lemma StepKeepsReject(e: Env, s: Sys, act: Act)
    requires OnceInv(e, s) && RejectInv(s) && Step(e, s, act).Some?
    ensures RejectInv(Step(e, s, act).value)
  {
    match act
    case Tick(now) => assert forall id :: RejectionMined(s, id) <==> RejectionMined(s.(clock := now), id);
    case Crash => assert forall id :: RejectionMined(s, id) <==> RejectionMined(s.(worker := Idle), id);
    case Others(sender, call) =>
      S.ExecLater(e.crypto, s.chain, sender, call);
      ChainKeepsReject(s, S.Next(e.crypto, s.chain, sender, call));
    case Mine(tx, ok, block) => MineKeepsReject(e, s, tx, ok, block);
    case SendFinalize(_, _) => SendStepKeepsReject(e, s, act);
    case SendReject(_, _) => SendStepKeepsReject(e, s, act);
    case RecordDecision(dbFails) => RecordKeepsReject(s, s.worker.ev, s.worker.decision, dbFails);
    case _ =>
      assert Step(e, s, act) == WorkerStep(e, s, act);
      QuietKeepsReject(e, s, act);
  }

  lemma {:induction false} RunKeepsReject(e: Env, s: Sys, acts: seq<Act>)
    requires OnceInv(e, s) && RejectInv(s) && RunFrom(e, s, acts).Some?
    ensures RejectInv(RunFrom(e, s, acts).value)
    decreases |acts|
  {
    if acts != [] {
      StepKeepsOnce(e, s, acts[0]);
      StepKeepsReject(e, s, acts[0]);
      RunKeepsReject(e, Step(e, s, acts[0]).value, acts[1..]);
    }
  }

  // ---- when a transaction was mined ----

  lemma RunPrefix(e: Env, s: Sys, acts: seq<Act>, k: nat)
    requires RunFrom(e, s, acts).Some? && k <= |acts|
    ensures RunFrom(e, s, acts[..k]).Some?
    ensures RunFrom(e, RunFrom(e, s, acts[..k]).value, acts[k..]) == RunFrom(e, s, acts)
    decreases k
  {
    if k > 0 {
      assert acts[..k][1..] == acts[1..][..k - 1] && acts[1..][k - 1..] == acts[k..];
      RunPrefix(e, Step(e, s, acts[0]).value, acts[1..], k - 1);
    } else {
      assert acts[0..] == acts;
    }
  }

  /** The system after the first k steps of a run. */
  function At(e: Env, s: Sys, acts: seq<Act>, k: nat): Sys
    requires RunFrom(e, s, acts).Some? && k <= |acts|
  {
    RunPrefix(e, s, acts, k);
    RunFrom(e, s, acts[..k]).value
  }

  /** Step k of the run mines a rejection of the id. */
  ghost predicate MinesRejection(e: Env, s: Sys, acts: seq<Act>, k: nat, id: Word)
    requires RunFrom(e, s, acts).Some? && k < |acts|
  {
    var before := At(e, s, acts, k);
    acts[k].Mine? && acts[k].tx < |before.sent| && before.sent[acts[k].tx].id == id && !before.sent[acts[k].tx].finalize
  }

  lemma AtStart(e: Env, s: Sys, acts: seq<Act>)
    requires RunFrom(e, s, acts).Some?
    ensures At(e, s, acts, 0) == s
  {
    assert acts[..0] == [];
  }

  lemma OneStep(e: Env, s: Sys, acts: seq<Act>, k: nat)
    requires RunFrom(e, s, acts).Some? && k < |acts|
    ensures Step(e, At(e, s, acts, k), acts[k]) == Some(At(e, s, acts, k + 1))
  {
    RunPrefix(e, s, acts, k + 1);
    RunPrefix(e, s, acts, k);
    assert acts[..k + 1] == acts[..k] + [acts[k]];
    RunAppend(e, s, acts[..k], acts[k]);
  }

  /** A receipt comes from the step that mined the transaction, and from no other. */
  lemma ReceiptStep(e: Env, s: Sys, act: Act, i: nat)
    requires Step(e, s, act).Some? && i < |Step(e, s, act).value.sent|
    requires Step(e, s, act).value.sent[i].receipt.Some?
    ensures i < |s.sent| && s.sent[i].id == Step(e, s, act).value.sent[i].id
    ensures s.sent[i].finalize == Step(e, s, act).value.sent[i].finalize
    ensures s.sent[i].receipt.Some? || (act.Mine? && act.tx == i)
  {
  }

  lemma {:induction false} MinedAt(e: Env, s: Sys, acts: seq<Act>, n: nat, i: nat) returns (k: nat)
    requires RunFrom(e, s, acts).Some? && n <= |acts| && s.sent == []
    requires var sent := At(e, s, acts, n).sent; i < |sent| && !sent[i].finalize && sent[i].receipt.Some?
    ensures k < n && MinesRejection(e, s, acts, k, At(e, s, acts, n).sent[i].id)
  {
    AtStart(e, s, acts);
    if n == 0 {
      assert false;
    } else {
      OneStep(e, s, acts, n - 1);
      ReceiptStep(e, At(e, s, acts, n - 1), acts[n - 1], i);
      if At(e, s, acts, n - 1).sent[i].receipt.Some? {
        k := MinedAt(e, s, acts, n - 1, i);
      } else {
        k := n - 1;
      }
    }
  }

  // ---- what a row "rejected" means ----

  /** Behind every row "rejected" there is a step that mined a rejection of that id. */
  lemma RejectedRowMined(e: Env, clock: Time, neodax: set<Address>, nitewatch: set<Address>, acts: seq<Act>, row: nat)
    returns (k: nat)
    requires RunFrom(e, Start(clock, neodax, nitewatch), acts).Some?
    requires var events := RunFrom(e, Start(clock, neodax, nitewatch), acts).value.tables.events;
      row < |events| && events[row].decision == Rejected
    ensures k < |acts|
    ensures MinesRejection(e, Start(clock, neodax, nitewatch), acts, k,
                           RunFrom(e, Start(clock, neodax, nitewatch), acts).value.tables.events[row].withdrawalId)
  {
    var s0 := Start(clock, neodax, nitewatch);
    var s := RunFrom(e, s0, acts).value;
    StartOnce(e, clock, neodax, nitewatch);
    RunKeepsReject(e, s0, acts);
    var id := s.tables.events[row].withdrawalId;
    assert RejectionMined(s, id);
    var i :| 0 <= i < |s.sent| && s.sent[i].id == id && !s.sent[i].finalize && s.sent[i].receipt.Some?;
    assert acts[..|acts|] == acts;
    k := MinedAt(e, s0, acts, |acts|, i);
  }

  /** Exactly when a mined rejection closes its withdrawal: when the account holds the role and the request is
      not finished yet. Nothing else can go wrong with it. */
  lemma RejectionClosesIff(c: Crypto, chain: S.Chain, account: Address, id: Word)
    requires S.ChainInv(c, chain) && IdStarted(chain, id)
    ensures S.Closed(id, false) !in chain.closed ==>
      var chain' := S.Next(c, chain, account, S.RejectWithdraw(id));
      S.Closed(id, false) in chain'.closed <==> account in chain.nitewatch && !chain.requests[id].finalized
    ensures S.Exec(c, chain, account, S.RejectWithdraw(id)).Ok? <==>
      account in chain.nitewatch && !chain.requests[id].finalized
  {
    var e :| e in chain.started && e.id == id;
    assert S.Exists(chain, id);
    var chain' := S.Next(c, chain, account, S.RejectWithdraw(id));
    if S.Exec(c, chain, account, S.RejectWithdraw(id)).Ok? {
      assert chain'.closed[|chain.closed|] == S.Closed(id, false);
    }
  }

  /** After a rejection by an account with the role, the id is closed; it is unpaid for good unless it was paid. */
  lemma SettledByRejection(c: Crypto, chain: S.Chain, account: Address, id: Word)
    requires S.ChainInv(c, chain) && IdStarted(chain, id) && account in chain.nitewatch && !PaidId(chain, id)
    ensures S.Closed(id, false) in S.Next(c, chain, account, S.RejectWithdraw(id)).closed
  {
    RejectionClosesIff(c, chain, account, id);
    if chain.requests[id].finalized {
      var e :| e in chain.started && e.id == id;
      assert S.Exists(chain, id) && S.Closed(id, true) !in chain.closed;
      S.ExecLater(c, chain, account, S.RejectWithdraw(id));
    }
  }

  lemma ClosedNeverPaid(c: Crypto, chain: S.Chain, id: Word)
    requires S.ChainInv(c, chain) && S.Closed(id, false) in chain.closed
    ensures !PaidId(chain, id)
  {
    assert S.Closed(id, !false) !in chain.closed;
  }

  // ---- what it leaves open ----

  /** What a caller can read before a rejection is mined: the withdrawal has been paid, or the rejection will fail for
      want of the role and leave open a withdrawal that can be paid. */
  predicate SurvivesRejection(c: Crypto, chain: S.Chain, account: Address, id: Word)
    requires id in chain.requests
  {
    var r := chain.requests[id];
    r.amount == 0 || (!r.finalized && account !in chain.nitewatch && !NativeToSelf(c, r))
  }

  lemma RequestAfterRejection(c: Crypto, chain: S.Chain, account: Address, id: Word)
    requires S.Exists(chain, id)
    ensures var chain' := S.Next(c, chain, account, S.RejectWithdraw(id));
      && S.Exists(chain', id)
      && (PaidOrOpen(c, chain'.requests[id]) <==> SurvivesRejection(c, chain, account, id))
  {
  }

  /** Exactly when a withdrawal has been paid or can still be paid after a rejection of it has been mined, by anyone
      and with any receipt. */
  lemma MinedRejectionIff(e: Env, s: Sys, tx: nat, ok: bool, block: nat)
    requires OnceInv(e, s) && RejectInv(s) && Step(e, s, Mine(tx, ok, block)).Some? && !s.sent[tx].finalize
    ensures var id := s.sent[tx].id;
      && S.Exists(s.chain, id)
      && (Payable(e, Step(e, s, Mine(tx, ok, block)).value, id)
          <==> SurvivesRejection(e.crypto, s.chain, e.account, id))
  {
    var id, s' := s.sent[tx].id, Step(e, s, Mine(tx, ok, block)).value;
    assert IdStarted(s.chain, id);
    PaidIsCleared(e.crypto, s.chain, id);
    MineKeeps(e, s, tx, ok, block);
    StartedStays(s.chain, s'.chain, id);
    PayableIff(e, s', id);
    RequestAfterRejection(e.crypto, s.chain, e.account, id);
  }

  /** Paid at the end of a run means payable at each of its steps. */
  lemma PaidWasPayable(e: Env, s: Sys, acts: seq<Act>, k: nat, id: Word)
    requires RunFrom(e, s, acts).Some? && k <= |acts| && PaidId(RunFrom(e, s, acts).value.chain, id)
    ensures Payable(e, At(e, s, acts, k), id)
  {
    RunPrefix(e, s, acts, k);
    assert PaysAfter(e, At(e, s, acts, k), acts[k..], id);
  }

  /** What a rejection mined in a run means. After it the withdrawal has been paid or can still be paid exactly if it
      survives the rejection; and if the account held the role, it is paid at the end exactly if it was paid before. */
  lemma RejectionDecides(e: Env, clock: Time, neodax: set<Address>, nitewatch: set<Address>, acts: seq<Act>,
                         k: nat, id: Word)
    requires RunFrom(e, Start(clock, neodax, nitewatch), acts).Some? && k < |acts|
    requires MinesRejection(e, Start(clock, neodax, nitewatch), acts, k, id)
    ensures var before := At(e, Start(clock, neodax, nitewatch), acts, k).chain;
      var end := RunFrom(e, Start(clock, neodax, nitewatch), acts).value.chain;
      && S.Exists(before, id)
      && (Payable(e, At(e, Start(clock, neodax, nitewatch), acts, k + 1), id)
          <==> SurvivesRejection(e.crypto, before, e.account, id))
      && (PaidId(end, id) ==> SurvivesRejection(e.crypto, before, e.account, id))
      && (PaidId(before, id) ==> PaidId(end, id))
      && (e.account in before.nitewatch ==> (PaidId(end, id) <==> PaidId(before, id)))
  {
    var s0 := Start(clock, neodax, nitewatch);
    RejectionSurvived(e, clock, neodax, nitewatch, acts, k, id);
    if PaidId(RunFrom(e, s0, acts).value.chain, id) {
      PaidWasPayable(e, s0, acts, k + 1, id);
    }
    RejectionUnderRole(e, clock, neodax, nitewatch, acts, k, id);
  }

  lemma RejectionSurvived(e: Env, clock: Time, neodax: set<Address>, nitewatch: set<Address>, acts: seq<Act>,
                          k: nat, id: Word)
    requires RunFrom(e, Start(clock, neodax, nitewatch), acts).Some? && k < |acts|
    requires MinesRejection(e, Start(clock, neodax, nitewatch), acts, k, id)
    ensures var before := At(e, Start(clock, neodax, nitewatch), acts, k).chain;
      && S.Exists(before, id)
      && (Payable(e, At(e, Start(clock, neodax, nitewatch), acts, k + 1), id)
          <==> SurvivesRejection(e.crypto, before, e.account, id))
  {
    KnownAt(e, clock, neodax, nitewatch, acts, k);
    OneStep(e, Start(clock, neodax, nitewatch), acts, k);
    MinedRejectionIff(e, At(e, Start(clock, neodax, nitewatch), acts, k),
                      acts[k].tx, acts[k].transferSucceeds, acts[k].blockNumber);
  }

  lemma RejectionUnderRole(e: Env, clock: Time, neodax: set<Address>, nitewatch: set<Address>, acts: seq<Act>,
                           k: nat, id: Word)
    requires RunFrom(e, Start(clock, neodax, nitewatch), acts).Some? && k < |acts|
    requires MinesRejection(e, Start(clock, neodax, nitewatch), acts, k, id)
    ensures var before := At(e, Start(clock, neodax, nitewatch), acts, k).chain;
      var end := RunFrom(e, Start(clock, neodax, nitewatch), acts).value.chain;
      && (PaidId(before, id) ==> PaidId(end, id))
      && (e.account in before.nitewatch ==> (PaidId(end, id) <==> PaidId(before, id)))
  {
    var s0 := Start(clock, neodax, nitewatch);
    var before, after, end := At(e, s0, acts, k), At(e, s0, acts, k + 1), RunFrom(e, s0, acts).value;
    KnownAt(e, clock, neodax, nitewatch, acts, k);
    KnownAt(e, clock, neodax, nitewatch, acts, k + 1);
    OneStep(e, s0, acts, k);
    assert IdStarted(before.chain, before.sent[acts[k].tx].id);
    assert after.chain == S.Next(e.crypto, before.chain, e.account, S.RejectWithdraw(id));
    PaidLater(e.crypto, before.chain, end.chain, e.account, id);
  }

  lemma PaidLater(c: Crypto, before: S.Chain, end: S.Chain, account: Address, id: Word)
    requires S.ChainInv(c, before) && S.ChainInv(c, end) && IdStarted(before, id)
    requires S.Later(before, end) && S.Later(S.Next(c, before, account, S.RejectWithdraw(id)), end)
    ensures PaidId(before, id) ==> PaidId(end, id)
    ensures account in before.nitewatch ==> (PaidId(end, id) <==> PaidId(before, id))
  {
    if PaidId(before, id) {
      var p :| p in before.payouts && p.id == id;
      assert p in end.payouts;
    } else if account in before.nitewatch {
      SettledByRejection(c, before, account, id);
      assert S.Closed(id, false) in end.closed;
      ClosedNeverPaid(c, end, id);
    }
  }

  /** At every step of a run the invariants hold, and the rest of the run only adds. */
  lemma KnownAt(e: Env, clock: Time, neodax: set<Address>, nitewatch: set<Address>, acts: seq<Act>, k: nat)
    requires RunFrom(e, Start(clock, neodax, nitewatch), acts).Some? && k <= |acts|
    ensures var s := At(e, Start(clock, neodax, nitewatch), acts, k);
      var end := RunFrom(e, Start(clock, neodax, nitewatch), acts).value;
      OnceInv(e, s) && RejectInv(s) && OnceInv(e, end) && S.Later(s.chain, end.chain)
  {
    var s0 := Start(clock, neodax, nitewatch);
    StartOnce(e, clock, neodax, nitewatch);
    RunPrefix(e, s0, acts, k);
    RunKeepsOnce(e, s0, acts[..k]);
    RunKeepsReject(e, s0, acts[..k]);
    RunKeepsOnce(e, At(e, s0, acts, k), acts[k..]);
  }

  /** What a row "rejected" means. Behind it a rejection was mined. From then on its withdrawal was unpaid for good
      exactly if, at that moment, the stored amount had not been cleared by a payout and one of three things held: the
      account had the role, the request was finished, or it was a native transfer to the contract itself. Under the
      role the amount alone decides whether the withdrawal is paid at the end of the run. */
  lemma RejectedUnpaidIff(e: Env, clock: Time, neodax: set<Address>, nitewatch: set<Address>, acts: seq<Act>, row: nat)
    returns (k: nat)
    requires RunFrom(e, Start(clock, neodax, nitewatch), acts).Some?
    requires var events := RunFrom(e, Start(clock, neodax, nitewatch), acts).value.tables.events;
      row < |events| && events[row].decision == Rejected
    ensures var s := RunFrom(e, Start(clock, neodax, nitewatch), acts).value;
      var id := s.tables.events[row].withdrawalId;
      && k < |acts| && MinesRejection(e, Start(clock, neodax, nitewatch), acts, k, id)
      && var before := At(e, Start(clock, neodax, nitewatch), acts, k).chain;
         && S.Exists(before, id)
         && (!Payable(e, At(e, Start(clock, neodax, nitewatch), acts, k + 1), id)
             <==> !SurvivesRejection(e.crypto, before, e.account, id))
         && (PaidId(s.chain, id) ==> SurvivesRejection(e.crypto, before, e.account, id))
         && (e.account in before.nitewatch ==> (!PaidId(s.chain, id) <==> before.requests[id].amount != 0))
  {
    var s0 := Start(clock, neodax, nitewatch);
    k := RejectedRowMined(e, clock, neodax, nitewatch, acts, row);
    var id := RunFrom(e, s0, acts).value.tables.events[row].withdrawalId;
    RejectionDecides(e, clock, neodax, nitewatch, acts, k, id);
    KnownAt(e, clock, neodax, nitewatch, acts, k);
    var before := At(e, s0, acts, k);
    assert IdStarted(before.chain, before.sent[acts[k].tx].id);
    PaidIsCleared(e.crypto, before.chain, id);
  }
}
