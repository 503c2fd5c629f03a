/** When pending withdrawals stay below their threshold, and the one thing that breaks it: re-adding an
    address whose earlier approval is still recorded. */
module QuorumThreshold {
  import opened Evm
  import opened Encoding
  import opened SignerTable
  import opened QuorumSpec
  import opened QuorumRuns
  import opened QuorumAdmin

  /** No pending withdrawal has collected the approvals it needs. */
  ghost predicate BelowThreshold(s: State) {
    forall id :: StatusOf(s, id) == Pending ==> |ValidApprovers(s, id)| < s.withdrawals[id].requiredQuorum
  }

  /** The approvals that adding `addrs` as signers makes count again. */
  function Revived(s: State, addrs: seq<Address>, id: Word): set<Address> {
    Elems(addrs) * Approvers(s, id)
  }

  lemma SubsetSize(a: set<Address>, b: set<Address>)
    requires a <= b
    ensures |a| <= |b|
  {
    assert b == a + (b - a);
  }

  /** An addition raises the count of each withdrawal by exactly the approvals it revives; a removal never
      raises it. */
  lemma AdminCounts(c: Crypto, s: State, sender: Address, now: Timestamp, op: AdminOp, id: Word)
    requires SignersInv(s) && ExecAdmin(c, s, sender, now, op).Ok?
    ensures var s' := ExecAdmin(c, s, sender, now, op).value;
      if op.kind.Add? then |ValidApprovers(s', id)| == |ValidApprovers(s, id)| + |Revived(s, op.addrs, id)|
      else |ValidApprovers(s', id)| <= |ValidApprovers(s, id)|
  {
    AdminExact(c, s, sender, now, op);
    var s' := ExecAdmin(c, s, sender, now, op).value;
    if op.kind.Add? {
      assert ValidApprovers(s', id) == ValidApprovers(s, id) + Revived(s, op.addrs, id);
    } else {
      SubsetSize(ValidApprovers(s', id), ValidApprovers(s, id));
    }
  }

  /** Exactly when an accepted `addSigners` keeps every pending withdrawal below its threshold: when for each
      of them the current count and the approvals it revives still stay below. */
  lemma AddKeepsBelowIff(c: Crypto, s: State, sender: Address, now: Timestamp, op: AdminOp, s': State)
    requires SignersInv(s) && op.kind.Add? && ExecAdmin(c, s, sender, now, op) == Ok(s')
    ensures BelowThreshold(s') <==>
      forall id :: StatusOf(s, id) == Pending ==>
        |ValidApprovers(s, id)| + |Revived(s, op.addrs, id)| < s.withdrawals[id].requiredQuorum
  {
    forall id ensures |ValidApprovers(s', id)| == |ValidApprovers(s, id)| + |Revived(s, op.addrs, id)| {
      AdminCounts(c, s, sender, now, op, id);
    }
    assert s'.withdrawals == s.withdrawals by { AdminExact(c, s, sender, now, op); }
    BelowByCounts(s, s', op.addrs);
  }

  lemma BelowByCounts(s: State, s': State, addrs: seq<Address>)
    requires s'.withdrawals == s.withdrawals
    requires forall id :: |ValidApprovers(s', id)| == |ValidApprovers(s, id)| + |Revived(s, addrs, id)|
    ensures BelowThreshold(s') <==>
      forall id :: StatusOf(s, id) == Pending ==>
        |ValidApprovers(s, id)| + |Revived(s, addrs, id)| < s.withdrawals[id].requiredQuorum
  {
    assert forall id :: StatusOf(s', id) == StatusOf(s, id);
  }

  // ---- one signer change, and those of a call-back ----

  /** An addition that leaves every pending withdrawal short of its threshold, by its count before the addition
      and the approvals it revives; a removal always does. */
  ghost predicate Harmless(g: Grant) {
    g.op.kind.Add? ==>
      forall id :: StatusOf(g.before, id) == Pending ==>
        |ValidApprovers(g.before, id)| + |Revived(g.before, g.op.addrs, id)| < g.before.withdrawals[id].requiredQuorum
  }

  ghost predicate AllHarmless(gs: seq<Grant>) {
    forall i :: 0 <= i < |gs| ==> Harmless(gs[i])
  }

  /** Right after each change every pending withdrawal is below its threshold. */
  ghost predicate AllAfterBelow(gs: seq<Grant>) {
    forall i :: 0 <= i < |gs| ==> BelowThreshold(gs[i].after)
  }

  /** The change re-adds nobody who approved a withdrawal that is pending at that moment. */
  ghost predicate NoRevival(g: Grant) {
    g.op.kind.Add? ==> forall id :: StatusOf(g.before, id) == Pending ==> Revived(g.before, g.op.addrs, id) == {}
  }

  ghost predicate NeverRevives(gs: seq<Grant>) {
    forall i :: 0 <= i < |gs| ==> NoRevival(gs[i])
  }

  /** Harmless as long as everything before it was. */
  ghost predicate Careful(g: Grant) {
    BelowThreshold(g.before) ==> Harmless(g)
  }

  ghost predicate AllCareful(gs: seq<Grant>) {
    forall i :: 0 <= i < |gs| ==> Careful(gs[i])
  }

  lemma GrantBelow(c: Crypto, g: Grant)
    requires Granted(c, g) && BelowThreshold(g.before) && Careful(g)
    ensures Harmless(g) && BelowThreshold(g.after)
  {
    if g.op.kind.Add? {
      AddKeepsBelowIff(c, g.before, g.sender, g.now, g.op, g.after);
    } else {
      RemovalBelow(c, g);
    }
  }

  lemma RemovalBelow(c: Crypto, g: Grant)
    requires Granted(c, g) && BelowThreshold(g.before) && g.op.kind.Remove?
    ensures BelowThreshold(g.after)
  {
    assert g.after.withdrawals == g.before.withdrawals by { AdminExact(c, g.before, g.sender, g.now, g.op); }
    forall id | StatusOf(g.after, id) == Pending
      ensures |ValidApprovers(g.after, id)| < g.after.withdrawals[id].requiredQuorum
    {
      assert StatusOf(g.before, id) == Pending;
      AdminCounts(c, g.before, g.sender, g.now, g.op, id);
    }
  }

  lemma {:induction false} CallbackBelow(c: Crypto, s: State, now: Timestamp, calls: seq<AdminTx>)
    requires SignersInv(s) && BelowThreshold(s) && AllCareful(Grants(c, s, now, calls))
    ensures BelowThreshold(Callback(c, s, now, calls))
    ensures AllHarmless(Grants(c, s, now, calls)) && AllAfterBelow(Grants(c, s, now, calls))
    decreases |calls|
  {
    if calls != [] {
      var first := ExecAdmin(c, s, calls[0].sender, now, calls[0].op);
      var gs := Grants(c, s, now, calls);
      if first.Ok? {
        AdminExact(c, s, calls[0].sender, now, calls[0].op);
        var rest := Grants(c, first.value, now, calls[1..]);
        assert gs == [gs[0]] + rest && gs[1..] == rest;
        GrantBelow(c, gs[0]);
        CallbackBelow(c, first.value, now, calls[1..]);
      } else {
        CallbackBelow(c, s, now, calls[1..]);
      }
    }
  }

  // ---- one transaction ----

  /** The pending withdrawals of s' are pending in s, with the same record and the same counting approvals. */
  ghost predicate PendingFrom(s: State, s': State) {
    forall id :: StatusOf(s', id) == Pending ==>
      StatusOf(s, id) == Pending && s'.withdrawals[id] == s.withdrawals[id] &&
        ValidApprovers(s', id) == ValidApprovers(s, id)
  }

  lemma BelowFrom(s: State, s': State)
    requires BelowThreshold(s) && PendingFrom(s, s')
    ensures BelowThreshold(s')
  {
  }

  /** What a step does below the threshold: its end, and every signer change in it, is below too. */
  ghost predicate StaysBelow(c: Crypto, s: State, tx: Tx) {
    var gs := StepGrants(c, s, tx);
    BelowThreshold(Next(c, s, tx)) && AllHarmless(gs) && AllAfterBelow(gs)
  }

  /** One transaction keeps pending withdrawals below their threshold if its signer changes are careful. */
  lemma StepBelow(c: Crypto, s: State, tx: Tx)
    requires Inv(s) && BelowThreshold(s) && AllCareful(StepGrants(c, s, tx))
    ensures StaysBelow(c, s, tx)
  {
    if Exec(c, s, tx).Ok? {
      match tx.call
      case Admin(_) => AdminBelow(c, s, tx);
      case Deposit(_, _, _, _) => DepositBelow(c, s, tx);
      case StartWithdraw(_, _, _, _) => StartBelow(c, s, tx);
      case FinalizeWithdraw(_, _) => FinalizeBelow(c, s, tx);
      case RejectWithdraw(_) => RejectBelow(c, s, tx);
    }
  }

  lemma AdminBelow(c: Crypto, s: State, tx: Tx)
    requires Inv(s) && BelowThreshold(s) && tx.call.Admin? && Exec(c, s, tx).Ok?
    requires AllCareful(StepGrants(c, s, tx))
    ensures StaysBelow(c, s, tx)
  {
    var call := AdminTx(tx.sender, tx.call.op);
    CallbackOfOne(c, s, tx.now, call);
    CallbackBelow(c, s, tx.now, [call]);
  }

  lemma DepositBelow(c: Crypto, s: State, tx: Tx)
    requires Inv(s) && BelowThreshold(s) && tx.call.Deposit? && Exec(c, s, tx).Ok?
    requires AllCareful(StepGrants(c, s, tx))
    ensures StaysBelow(c, s, tx)
  {
    var credited := Credited(s, tx.call.token, tx.call.amount);
    assert PendingFrom(s, credited);
    BelowFrom(s, credited);
    if tx.call.token != ZERO {
      CallbackBelow(c, credited, tx.now, tx.call.transfer.callback);
    }
  }

  /** Starting and rejecting hand control to nobody. */
  lemma NoGrants(c: Crypto, s: State, tx: Tx)
    requires tx.call.StartWithdraw? || tx.call.RejectWithdraw?
    ensures StepGrants(c, s, tx) == []
  {
  }

  lemma RejectBelow(c: Crypto, s: State, tx: Tx)
    requires Inv(s) && BelowThreshold(s) && tx.call.RejectWithdraw? && Exec(c, s, tx).Ok?
    ensures StaysBelow(c, s, tx)
  {
    var id := tx.call.id;
    NoGrants(c, s, tx);
    BelowAfterClear(s, id, s.withdrawals[id].(finalized := true));
  }

  lemma StartBelow(c: Crypto, s: State, tx: Tx)
    requires Inv(s) && BelowThreshold(s) && tx.call.StartWithdraw? && Exec(c, s, tx).Ok?
    ensures StaysBelow(c, s, tx)
  {
    var call := tx.call;
    NoGrants(c, s, tx);
    BelowAfterStart(s, WithdrawalId(c, call.user, call.token', call.amount', call.nonce),
                    Request(call.user, call.token', call.amount', false, tx.now, s.quorum));
  }

  /** A fresh withdrawal has no approvals, and needs at least one. */
  lemma BelowAfterStart(s: State, id: Word, r: Request)
    requires BelowThreshold(s) && id !in s.approvals && id !in s.withdrawals && r.requiredQuorum >= 1
    ensures BelowThreshold(s.(withdrawals := s.withdrawals[id := r]))
  {
    var s' := s.(withdrawals := s.withdrawals[id := r]);
    assert ValidApprovers(s', id) == {};
    OthersBelow(s, s', id);
  }

  lemma OthersBelow(s: State, s': State, id: Word)
    requires BelowThreshold(s)
    requires StatusOf(s', id) == Pending ==> |ValidApprovers(s', id)| < s'.withdrawals[id].requiredQuorum
    requires forall other :: other != id && StatusOf(s', other) == Pending ==>
      StatusOf(s, other) == Pending && s'.withdrawals[other] == s.withdrawals[other] &&
        ValidApprovers(s', other) == ValidApprovers(s, other)
    ensures BelowThreshold(s')
  {
  }

  lemma FinalizeBelow(c: Crypto, s: State, tx: Tx)
    requires Inv(s) && BelowThreshold(s) && tx.call.FinalizeWithdraw? && Exec(c, s, tx).Ok?
    requires AllCareful(StepGrants(c, s, tx))
    ensures StaysBelow(c, s, tx)
  {
    if ReachesThreshold(s, tx) {
      PayoutBelow(c, s, tx);
    } else {
      ApprovalBelow(c, s, tx);
    }
  }

  /** With this approval the count reaches the threshold. */
  predicate ReachesThreshold(s: State, tx: Tx)
    requires tx.call.FinalizeWithdraw? && tx.call.id in s.withdrawals
  {
    |ValidApprovers(Approved(s, tx.sender, tx.call.id), tx.call.id)| >= s.withdrawals[tx.call.id].requiredQuorum
  }

  lemma ApprovalBelow(c: Crypto, s: State, tx: Tx)
    requires Inv(s) && BelowThreshold(s) && tx.call.FinalizeWithdraw? && Exec(c, s, tx).Ok?
    requires !ReachesThreshold(s, tx)
    ensures StaysBelow(c, s, tx)
  {
    assert StepGrants(c, s, tx) == [] && Next(c, s, tx) == Approved(s, tx.sender, tx.call.id);
    BelowAfterApproval(s, tx.sender, tx.call.id);
  }

  lemma PayoutBelow(c: Crypto, s: State, tx: Tx)
    requires Inv(s) && BelowThreshold(s) && tx.call.FinalizeWithdraw? && Exec(c, s, tx).Ok?
    requires ReachesThreshold(s, tx) && AllCareful(StepGrants(c, s, tx))
    ensures StaysBelow(c, s, tx)
  {
    var id, calls := tx.call.id, tx.call.payout.callback;
    var paid := PaidOut(c, Approved(s, tx.sender, id), id);
    assert StepGrants(c, s, tx) == Grants(c, paid, tx.now, calls);
    BelowAfterPaid(c, s, tx.sender, id);
    CallbackBelow(c, paid, tx.now, calls);
    BelowAfterClear(Callback(c, paid, tx.now, calls), id, Cleared(s.withdrawals[id]));
  }

  lemma BelowAfterApproval(s: State, sender: Address, id: Word)
    requires BelowThreshold(s) && id in s.withdrawals
    requires |ValidApprovers(Approved(s, sender, id), id)| < s.withdrawals[id].requiredQuorum
    ensures BelowThreshold(Approved(s, sender, id))
  {
    OthersBelow(s, Approved(s, sender, id), id);
  }

  /** Finishing one withdrawal leaves the others as they were. */
  lemma BelowAfterFinish(s: State, s': State, id: Word, r: Request)
    requires BelowThreshold(s) && r.finalized && s'.table == s.table
    requires s'.withdrawals == s.withdrawals[id := r]
    requires forall other :: other != id ==> Approvers(s', other) == Approvers(s, other)
    ensures BelowThreshold(s')
  {
    OthersBelow(s, s', id);
  }

  lemma BelowAfterPaid(c: Crypto, s: State, sender: Address, id: Word)
    requires BelowThreshold(s) && id in s.withdrawals
    requires BalanceOf(s.balances, s.withdrawals[id].token) >= s.withdrawals[id].amount
    ensures BelowThreshold(PaidOut(c, Approved(s, sender, id), id))
  {
    BelowAfterFinish(s, PaidOut(c, Approved(s, sender, id), id), id, s.withdrawals[id].(finalized := true));
  }

  lemma BelowAfterClear(s: State, id: Word, r: Request)
    requires BelowThreshold(s) && r.finalized
    ensures BelowThreshold(s.(withdrawals := s.withdrawals[id := r]))
  {
    BelowAfterFinish(s, s.(withdrawals := s.withdrawals[id := r]), id, r);
  }

  // ---- runs ----

  /** Below the threshold throughout: in every state of the run up to n, and right after every signer change,
      also one inside a payout. */
  ghost predicate AlwaysBelow(r: Run, ledger: seq<seq<Grant>>, n: nat)
    requires n <= |ledger| < |r.states|
  {
    (forall k :: 0 <= k <= n ==> BelowThreshold(r.states[k])) && AllAfterBelow(History(ledger, n))
  }

  lemma CarefulParts(a: seq<Grant>, b: seq<Grant>)
    requires AllCareful(a + b)
    ensures AllCareful(a) && AllCareful(b)
  {
    assert forall i :: 0 <= i < |a| ==> (a + b)[i] == a[i];
    assert forall i :: 0 <= i < |b| ==> (a + b)[|a| + i] == b[i];
  }

  lemma {:induction false} CarefulRun(c: Crypto, r: Run, ledger: seq<seq<Grant>>, n: nat)
    requires IsRun(c, r) && Recorded(c, r, ledger) && n <= |r.txs|
    requires AllCareful(History(ledger, n))
    ensures AlwaysBelow(r, ledger, n) && AllHarmless(History(ledger, n))
  {
    if n == 0 {
      InitialState(c, r);
      NothingPending(r.states[0]);
    } else {
      CarefulParts(History(ledger, n - 1), ledger[n - 1]);
      CarefulRun(c, r, ledger, n - 1);
      BelowAtNext(c, r, ledger, n - 1);
    }
  }

  lemma BelowAtNext(c: Crypto, r: Run, ledger: seq<seq<Grant>>, i: nat)
    requires IsRun(c, r) && Recorded(c, r, ledger) && i < |r.txs| && BelowThreshold(r.states[i])
    requires AllCareful(ledger[i])
    ensures BelowThreshold(r.states[i + 1]) && AllHarmless(ledger[i]) && AllAfterBelow(ledger[i])
  {
    StepAt(c, r, i);
    assert RecordedAt(c, r, ledger, i);
    StepBelow(c, r.states[i], r.txs[i]);
  }

  lemma NothingPending(s: State)
    requires s.withdrawals == map[]
    ensures BelowThreshold(s)
  {
  }

  /** The exact condition. In a run every pending withdrawal is below its threshold throughout, inside payouts
      too, if and only if every addition of signers found, for each withdrawal pending at that moment, the count
      and the approvals it was about to revive together below the threshold. */
  lemma AlwaysBelowIff(c: Crypto, r: Run, ledger: seq<seq<Grant>>, n: nat)
    requires IsRun(c, r) && Recorded(c, r, ledger) && n <= |r.txs|
    ensures AlwaysBelow(r, ledger, n) <==> AllHarmless(History(ledger, n))
  {
    var h := History(ledger, n);
    if AllHarmless(h) {
      CarefulRun(c, r, ledger, n);
    }
    if AlwaysBelow(r, ledger, n) {
      forall i | 0 <= i < |h| ensures Harmless(h[i]) {
        HistoryNumbered(c, r, ledger, n, i);
        var g := h[i];
        if g.op.kind.Add? { AddKeepsBelowIff(c, g.before, g.sender, g.now, g.op, g.after); }
      }
    }
  }

  /** In particular in every run whose additions revive no approval of a pending withdrawal. */
  lemma PendingStaysBelow(c: Crypto, r: Run, ledger: seq<seq<Grant>>, n: nat)
    requires IsRun(c, r) && Recorded(c, r, ledger) && n <= |r.txs|
    requires NeverRevives(History(ledger, n))
    ensures AlwaysBelow(r, ledger, n) && AllHarmless(History(ledger, n))
  {
    var h := History(ledger, n);
    forall i | 0 <= i < |h| ensures Careful(h[i]) {
      assert NoRevival(h[i]);
    }
    CarefulRun(c, r, ledger, n);
  }

  /** As long as every addition was harmless, every accepted approval either leaves the withdrawal pending below
      its threshold or, reaching it exactly, executes the withdrawal in the same call. */
  lemma ThresholdExecutes(c: Crypto, r: Run, ledger: seq<seq<Grant>>, i: nat, id: Word)
    requires IsRun(c, r) && Recorded(c, r, ledger) && i < |r.txs| && Approves(c, r.states[i], r.txs[i], id)
    requires AllHarmless(History(ledger, i))
    ensures var s := r.states[i];
      var reached := s.table.isSigner * (Approvers(s, id) + {r.txs[i].sender});
      && |reached| <= s.withdrawals[id].requiredQuorum
      && (ExecutedAt(r, i, id) <==> |reached| == s.withdrawals[id].requiredQuorum)
  {
    StepAt(c, r, i);
    AlwaysBelowIff(c, r, ledger, i);
    ApprovalFromBelow(c, r.states[i], r.txs[i], id);
  }

  lemma ApprovalFromBelow(c: Crypto, s: State, tx: Tx, id: Word)
    requires Inv(s) && BelowThreshold(s) && Approves(c, s, tx, id)
    ensures var reached := s.table.isSigner * (Approvers(s, id) + {tx.sender});
      && |reached| <= s.withdrawals[id].requiredQuorum
      && (Executes(c, s, tx, id) <==> |reached| == s.withdrawals[id].requiredQuorum)
  {
    FinalizeExact(c, s, tx.sender, tx.now, id, tx.call.payout);
    ApprovalAddsOne(s, tx.sender, id);
    ExecutesAtThreshold(c, s, tx, id);
  }

  /** One more approval raises the count by at most one, so from below it reaches the threshold at most. */
  lemma ApprovalAddsOne(s: State, sender: Address, id: Word)
    requires BelowThreshold(s) && StatusOf(s, id) == Pending && sender in s.table.isSigner
    ensures |s.table.isSigner * (Approvers(s, id) + {sender})| <= s.withdrawals[id].requiredQuorum
  {
    assert s.table.isSigner * (Approvers(s, id) + {sender}) == ValidApprovers(s, id) + {sender};
  }

  lemma ExecutesAtThreshold(c: Crypto, s: State, tx: Tx, id: Word)
    requires Inv(s) && Approves(c, s, tx, id)
    ensures Executes(c, s, tx, id) <==>
      |s.table.isSigner * (Approvers(s, id) + {tx.sender})| >= s.withdrawals[id].requiredQuorum
  {
    FinalizeExact(c, s, tx.sender, tx.now, id, tx.call.payout);
  }
}
