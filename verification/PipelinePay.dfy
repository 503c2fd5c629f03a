/** Which withdrawals have been paid or can still be paid, read off the stored request, at any point of any run. Of the
    decision rows only "approved" answers that question by itself. */
module PipelinePay {
  import opened Evm
  import opened Store
  import opened Pipeline
  import opened PipelineOnce
  import S = SimpleSpec

  ghost predicate IdStarted(chain: S.Chain, id: Word) {
    exists e :: e in chain.started && e.id == id
  }

  lemma GenuineStarted(chain: S.Chain, ev: Event)
    requires Genuine(chain, ev)
    ensures IdStarted(chain, ev.id)
  {
    var i :| 0 <= i < |chain.started| && chain.started[i].id == ev.id && chain.started[i].user == ev.user
      && chain.started[i].token == ev.token && chain.started[i].amount == ev.amount;
    assert chain.started[i] in chain.started;
  }

  /** Whether an id has been paid can be read off its stored request. */
  lemma PaidIsCleared(c: Crypto, chain: S.Chain, id: Word)
    requires S.ChainInv(c, chain) && IdStarted(chain, id)
    ensures S.Exists(chain, id) && (PaidId(chain, id) <==> chain.requests[id].amount == 0)
  {
    var e :| e in chain.started && e.id == id;
    assert S.Exists(chain, e.id);
  }

  /** Paid, now or at the end of some continuation of the run. */
  ghost predicate Payable(e: Env, s: Sys, id: Word) {
    exists more :: PaysAfter(e, s, more, id)
  }

  ghost predicate PaysAfter(e: Env, s: Sys, more: seq<Act>, id: Word) {
    RunFrom(e, s, more).Some? && PaidId(RunFrom(e, s, more).value.chain, id)
  }

  /** A native transfer to the contract itself: nothing receives it. */
  predicate NativeToSelf(c: Crypto, r: S.SimpleRequest) {
    r.token == ZERO && r.user == c.self
  }

  /** Cleared by a payout, or open and not doomed. */
  predicate PaidOrOpen(c: Crypto, r: S.SimpleRequest) {
    r.amount == 0 || (!r.finalized && !NativeToSelf(c, r))
  }

  // ---- what cannot be paid stays so ----

  ghost predicate Dead(c: Crypto, chain: S.Chain, id: Word) {
    S.Exists(chain, id) && !PaidOrOpen(c, chain.requests[id])
  }

  lemma DeadStays(c: Crypto, chain: S.Chain, sender: Address, call: S.ChainCall, id: Word)
    requires Dead(c, chain, id)
    ensures Dead(c, S.Next(c, chain, sender, call), id)
  {
  }

  lemma StepKeepsDead(e: Env, s: Sys, act: Act, id: Word)
    requires Dead(e.crypto, s.chain, id) && Step(e, s, act).Some?
    ensures Dead(e.crypto, Step(e, s, act).value.chain, id)
  {
    match act
    case Others(sender, call) => DeadStays(e.crypto, s.chain, sender, call, id);
    case Mine(tx, ok, _) => DeadStays(e.crypto, s.chain, e.account, MineCall(s.sent[tx], ok), id);
    case _ => assert Step(e, s, act).value.chain == s.chain;
  }

  lemma {:induction false} RunKeepsDead(e: Env, s: Sys, acts: seq<Act>, id: Word)
    requires Dead(e.crypto, s.chain, id) && RunFrom(e, s, acts).Some?
    ensures Dead(e.crypto, RunFrom(e, s, acts).value.chain, id)
    decreases |acts|
  {
    if acts != [] {
      StepKeepsDead(e, s, acts[0], id);
      RunKeepsDead(e, Step(e, s, acts[0]).value, acts[1..], id);
    }
  }

  lemma DeadIsNotPayable(e: Env, s: Sys, id: Word)
    requires OnceInv(e, s) && IdStarted(s.chain, id) && Dead(e.crypto, s.chain, id)
    ensures !Payable(e, s, id)
  {
    forall more | RunFrom(e, s, more).Some? ensures !PaysAfter(e, s, more, id) {
      var s' := RunFrom(e, s, more).value;
      RunKeepsDead(e, s, more, id);
      RunKeepsOnce(e, s, more);
      StartedStays(s.chain, s'.chain, id);
      PaidIsCleared(e.crypto, s'.chain, id);
    }
  }

  lemma StartedStays(chain: S.Chain, chain': S.Chain, id: Word)
    requires S.Later(chain, chain') && IdStarted(chain, id)
    ensures IdStarted(chain', id)
  {
    var e :| e in chain.started && e.id == id;
    assert e in chain'.started;
  }

  // ---- what is open can be paid ----

  /** The role is given to somebody, the amount is deposited, and the withdrawal is finalized. */
  function Funding(chain: S.Chain, r: S.SimpleRequest): S.ChainCall {
    if r.token == ZERO then S.Deposit(ZERO, r.amount, r.amount, S.Delivery(true, 0))
    else S.Deposit(r.token, 1, 0, S.Delivery(true, BalanceOf(chain.balances, r.token) + r.amount))
  }

  function PayingActs(chain: S.Chain, id: Word): seq<Act>
    requires id in chain.requests
  {
    [Others(1, S.ChangeRoles({1}, {1})), Others(1, Funding(chain, chain.requests[id])),
     Others(1, S.FinalizeWithdraw(id, true))]
  }

  lemma Funded(c: Crypto, chain: S.Chain, r: S.SimpleRequest)
    requires r.amount != 0
    ensures var chain' := S.Next(c, chain, 1, Funding(chain, r));
      && BalanceOf(chain'.balances, r.token) >= r.amount
      && chain'.requests == chain.requests && chain'.nitewatch == chain.nitewatch
  {
  }

  lemma FundedPays(c: Crypto, chain: S.Chain, sender: Address, id: Word)
    requires S.Exists(chain, id) && sender in chain.nitewatch
    requires var r := chain.requests[id];
      r.amount != 0 && !r.finalized && !NativeToSelf(c, r) && BalanceOf(chain.balances, r.token) >= r.amount
    ensures PaidId(S.Next(c, chain, sender, S.FinalizeWithdraw(id, true)), id)
  {
    var chain' := S.Next(c, chain, sender, S.FinalizeWithdraw(id, true));
    assert chain'.payouts[|chain.payouts|].id == id && chain'.payouts[|chain.payouts|] in chain'.payouts;
  }

  lemma ThreeOthers(e: Env, s: Sys, acts: seq<Act>)
    requires |acts| == 3 && forall i :: 0 <= i < 3 ==> acts[i].Others?
    ensures RunFrom(e, s, acts).Some?
    ensures var a := S.Next(e.crypto, s.chain, acts[0].sender, acts[0].call);
      var b := S.Next(e.crypto, a, acts[1].sender, acts[1].call);
      RunFrom(e, s, acts).value.chain == S.Next(e.crypto, b, acts[2].sender, acts[2].call)
  {
    var s1 := Step(e, s, acts[0]).value;
    var s2 := Step(e, s1, acts[1]).value;
    var s3 := Step(e, s2, acts[2]).value;
    assert acts[1..][0] == acts[1] && acts[1..][1..][0] == acts[2] && acts[1..][1..][1..] == [];
    assert RunFrom(e, s2, acts[1..][1..]) == RunFrom(e, s3, []);
    assert RunFrom(e, s1, acts[1..]) == RunFrom(e, s2, acts[1..][1..]);
  }

  lemma OpenIsPayable(e: Env, s: Sys, id: Word)
    requires S.Exists(s.chain, id) && s.chain.requests[id].amount != 0 && PaidOrOpen(e.crypto, s.chain.requests[id])
    ensures Payable(e, s, id)
  {
    var acts, r := PayingActs(s.chain, id), s.chain.requests[id];
    var a := S.Next(e.crypto, s.chain, 1, S.ChangeRoles({1}, {1}));
    assert a.balances == s.chain.balances && Funding(a, r) == Funding(s.chain, r);
    Funded(e.crypto, a, r);
    FundedPays(e.crypto, S.Next(e.crypto, a, 1, Funding(a, r)), 1, id);
    ThreeOthers(e, s, acts);
    assert PaysAfter(e, s, acts, id);
  }

  // ---- both together ----

  /** At any moment of any run: a withdrawal that was started has been paid or can still be paid, by whoever gets the
      role, exactly if its stored amount has been cleared, or it is neither finished nor a native transfer to the
      contract itself. */
  lemma PayableIff(e: Env, s: Sys, id: Word)
    requires OnceInv(e, s) && IdStarted(s.chain, id)
    ensures S.Exists(s.chain, id)
    ensures Payable(e, s, id) <==> PaidOrOpen(e.crypto, s.chain.requests[id])
  {
    PaidIsCleared(e.crypto, s.chain, id);
    if !PaidOrOpen(e.crypto, s.chain.requests[id]) {
      DeadIsNotPayable(e, s, id);
    } else if s.chain.requests[id].amount == 0 {
      assert PaysAfter(e, s, [], id);
    } else {
      OpenIsPayable(e, s, id);
    }
  }

  // ---- decision rows ----

  /** Every decision row is about a withdrawal that was started. */
  ghost predicate RowsStarted(s: Sys) {
    forall i :: 0 <= i < |s.tables.events| ==> IdStarted(s.chain, s.tables.events[i].withdrawalId)
  }

  lemma StepLater(e: Env, s: Sys, act: Act)
    requires Step(e, s, act).Some?
    ensures S.Later(s.chain, Step(e, s, act).value.chain)
  {
    match act
    case Others(sender, call) => S.ExecLater(e.crypto, s.chain, sender, call);
    case Mine(tx, ok, _) => S.ExecLater(e.crypto, s.chain, e.account, MineCall(s.sent[tx], ok));
    case _ => assert Step(e, s, act).value.chain == s.chain;
  }

  lemma StepKeepsRows(e: Env, s: Sys, act: Act)
    requires RowsStarted(s) && Step(e, s, act).Some?
    requires s.worker.Deciding? ==> IdStarted(s.chain, s.worker.ev.id)
    ensures RowsStarted(Step(e, s, act).value)
  {
    var s' := Step(e, s, act).value;
    StepLater(e, s, act);
    forall i | 0 <= i < |s.tables.events| ensures IdStarted(s'.chain, s.tables.events[i].withdrawalId) {
      StartedStays(s.chain, s'.chain, s.tables.events[i].withdrawalId);
    }
    if act.RecordDecision? {
      assert s'.chain == s.chain;
    } else {
      assert s'.tables.events == s.tables.events;
    }
  }

  lemma {:induction false} RunKeepsRows(e: Env, s: Sys, acts: seq<Act>)
    requires OnceInv(e, s) && RowsStarted(s) && RunFrom(e, s, acts).Some?
    ensures RowsStarted(RunFrom(e, s, acts).value)
    decreases |acts|
  {
    if acts != [] {
      if s.worker.Deciding? { GenuineStarted(s.chain, s.worker.ev); }
      StepKeepsRows(e, s, acts[0]);
      StepKeepsOnce(e, s, acts[0]);
      RunKeepsRows(e, Step(e, s, acts[0]).value, acts[1..]);
    }
  }

  /** What a decision row says about the money. "Approved" means paid. Of any other row, "failed" in particular, the
      withdrawal has been paid or can still be paid exactly if its stored amount has been cleared, or it is neither
      finished nor a native transfer to the contract itself. */
  lemma RowPayableIff(e: Env, clock: Time, neodax: set<Address>, nitewatch: set<Address>, acts: seq<Act>, row: nat)
    requires RunFrom(e, Start(clock, neodax, nitewatch), acts).Some?
    requires row < |RunFrom(e, Start(clock, neodax, nitewatch), acts).value.tables.events|
    ensures var s := RunFrom(e, Start(clock, neodax, nitewatch), acts).value;
      var id := s.tables.events[row].withdrawalId;
      && S.Exists(s.chain, id)
      && (s.tables.events[row].decision == Approved ==> PaidId(s.chain, id))
      && (PaidId(s.chain, id) <==> s.chain.requests[id].amount == 0)
      && (Payable(e, s, id) <==> PaidOrOpen(e.crypto, s.chain.requests[id]))
  {
    var s0 := Start(clock, neodax, nitewatch);
    StartOnce(e, clock, neodax, nitewatch);
    RunKeepsOnce(e, s0, acts);
    RunKeepsRows(e, s0, acts);
    var s := RunFrom(e, s0, acts).value;
    PayableIff(e, s, s.tables.events[row].withdrawalId);
    PaidIsCleared(e.crypto, s.chain, s.tables.events[row].withdrawalId);
  }
}
