/** What holds in every run of `QuorumCustody`: any sequence of transactions by anyone, at times that never
    go back, with payouts and tokens that call back and succeed or fail at will. */
module QuorumRuns {
  import opened Evm
  import opened Encoding
  import opened SignerTable
  import opened QuorumSpec

  /** `states[i]` is the storage before transaction i; a reverted transaction leaves it as it was. */
  datatype Run = Run(states: seq<State>, txs: seq<Tx>)

  /** The state after transaction i is what the contract makes of it. */
  ghost predicate Linked(c: Crypto, r: Run, i: nat)
    requires i < |r.txs| < |r.states|
  {
    r.states[i + 1] == Next(c, r.states[i], r.txs[i])
  }

  /** The contract has no code that calls its own entry points, so it is never a sender. */
  ghost predicate IsRun(c: Crypto, r: Run) {
    && |r.states| == |r.txs| + 1
    && (exists initial, q :: Construct(initial, q) == Ok(r.states[0]))
    && (forall i :: 0 <= i < |r.txs| ==> Linked(c, r, i))
    && (forall i, j :: 0 <= i < j < |r.txs| ==> r.txs[i].now <= r.txs[j].now)
    && (forall i :: 0 <= i < |r.txs| ==> r.txs[i].sender != c.self)
  }

  ghost predicate Accepted(c: Crypto, r: Run, i: nat)
    requires i < |r.txs| < |r.states|
  {
    Exec(c, r.states[i], r.txs[i]).Ok?
  }

  /** The signer table, the quorum bounds and the request well-formedness hold in every reachable state. */
  lemma {:induction false} ReachableInv(c: Crypto, r: Run, n: nat)
    requires IsRun(c, r) && n < |r.states|
    ensures Inv(r.states[n])
  {
    if n == 0 {
      var initial, q :| Construct(initial, q) == Ok(r.states[0]);
      ConstructInv(initial, q);
    } else {
      ReachableInv(c, r, n - 1);
      assert Linked(c, r, n - 1);
      if Accepted(c, r, n - 1) {
        ExecInv(c, r.states[n - 1], r.txs[n - 1]);
      }
    }
  }

  lemma StepAt(c: Crypto, r: Run, i: nat)
    requires IsRun(c, r) && i < |r.txs|
    ensures Inv(r.states[i]) && Linked(c, r, i)
  {
    ReachableInv(c, r, i);
  }

  lemma InitialState(c: Crypto, r: Run)
    requires IsRun(c, r)
    ensures r.states[0].withdrawals == map[] && r.states[0].approvals == map[] && r.states[0].balances == map[]
    ensures r.states[0].signerNonce == 0
  {
    var initial, q :| Construct(initial, q) == Ok(r.states[0]);
  }

  // ---- one withdrawal, one step ----

  datatype Status = Absent | Pending | Executed | Rejected

  /** Execution clears the recipient, rejection keeps it. */
  function StatusOf(s: State, id: Word): Status {
    if id !in s.withdrawals then Absent
    else if !s.withdrawals[id].finalized then Pending
    else if s.withdrawals[id].user == ZERO then Executed
    else Rejected
  }

  ghost predicate Starts(c: Crypto, s: State, tx: Tx, id: Word) {
    && tx.call.StartWithdraw? && Exec(c, s, tx).Ok?
    && id == WithdrawalId(c, tx.call.user, tx.call.token', tx.call.amount', tx.call.nonce)
  }

  ghost predicate Approves(c: Crypto, s: State, tx: Tx, id: Word) {
    tx.call.FinalizeWithdraw? && tx.call.id == id && Exec(c, s, tx).Ok?
  }

  ghost predicate Executes(c: Crypto, s: State, tx: Tx, id: Word) {
    StatusOf(s, id) == Pending && StatusOf(Next(c, s, tx), id) == Executed
  }

  /** Withdrawals and approvals after an accepted transaction, kind by kind. */
  lemma StepExact(c: Crypto, s: State, tx: Tx)
    requires Inv(s)
    ensures var s' := Next(c, s, tx);
      Exec(c, s, tx).Ok? ==>
        match tx.call
        case Admin(_) => OnlySigners(s, s')
        case Deposit(token, amount, _, _) => OnlySigners(Credited(s, token, amount), s')
        case StartWithdraw(_, _, _, _) => s' == s.(withdrawals := s'.withdrawals)
        case FinalizeWithdraw(id, _) =>
          && id in s.withdrawals && !s.withdrawals[id].finalized
          && s'.approvals == s.approvals[id := Approvers(s, id) + {tx.sender}]
          && (s'.withdrawals == s.withdrawals || s'.withdrawals == s.withdrawals[id := Cleared(s.withdrawals[id])])
        case RejectWithdraw(_) => s' == s.(withdrawals := s'.withdrawals)
  {
    if Exec(c, s, tx).Ok? {
      match tx.call
      case Admin(op) => AdminExact(c, s, tx.sender, tx.now, op);
      case Deposit(token, amount, value, ext) => DepositExact(c, s, tx.now, token, amount, value, ext);
      case StartWithdraw(_, _, _, _) =>
      case FinalizeWithdraw(id, ext) => FinalizeExact(c, s, tx.sender, tx.now, id, ext);
      case RejectWithdraw(_) =>
    }
  }

  /** Everything one transaction can do to one withdrawal record. */
  lemma StepRequest(c: Crypto, s: State, tx: Tx, id: Word)
    requires Inv(s)
    ensures var s' := Next(c, s, tx);
      if id !in s.withdrawals then
        id in s'.withdrawals ==>
          Starts(c, s, tx, id) &&
          s'.withdrawals[id] == Request(tx.call.user, tx.call.token', tx.call.amount', false, tx.now, s.quorum)
      else
        var r := s.withdrawals[id];
        id in s'.withdrawals && (
          || s'.withdrawals[id] == r
          || (!r.finalized && Approves(c, s, tx, id) && tx.now <= r.createdAt + OPERATION_EXPIRY
              && s'.withdrawals[id] == Cleared(r))
          || (!r.finalized && tx.call == RejectWithdraw(id) && Exec(c, s, tx).Ok? &&
            tx.now > r.createdAt + OPERATION_EXPIRY
              && s'.withdrawals[id] == r.(finalized := true)))
  {
    StepExact(c, s, tx);
  }

  /** Everything one transaction can do to the approvals of one withdrawal. */
  lemma StepApprovals(c: Crypto, s: State, tx: Tx, id: Word)
    requires Inv(s)
    ensures var s' := Next(c, s, tx);
      || Approvers(s', id) == Approvers(s, id)
      || (Approves(c, s, tx, id) && id in s.withdrawals && !s.withdrawals[id].finalized
          && tx.sender in s.table.isSigner && tx.sender !in Approvers(s, id)
          && tx.now <= s.withdrawals[id].createdAt + OPERATION_EXPIRY
          && Approvers(s', id) == Approvers(s, id) + {tx.sender})
  {
    StepExact(c, s, tx);
  }

  /** Transaction i executed this withdrawal. */
  ghost predicate ExecutedAt(r: Run, i: nat, id: Word)
    requires i < |r.txs| < |r.states|
  {
    StatusOf(r.states[i], id) == Pending && StatusOf(r.states[i + 1], id) == Executed
  }

  /** Outsiders change nothing but by depositing. */
  lemma OnlySignersAct(c: Crypto, s: State, tx: Tx)
    requires tx.sender !in s.table.isSigner && !tx.call.Deposit?
    ensures Next(c, s, tx) == s
  {
  }

  // ---- lifecycle ----

  ghost predicate Edge(a: Status, b: Status) {
    a == b || (a == Absent && b == Pending) || (a == Pending && (b == Executed || b == Rejected))
  }

  ghost predicate Terminal(a: Status) {
    a == Executed || a == Rejected
  }

  /** Each transaction moves a withdrawal along None -> Pending -> {Executed, Rejected}, or not at all. */
  lemma StepLifecycle(c: Crypto, s: State, tx: Tx, id: Word)
    requires Inv(s)
    ensures Edge(StatusOf(s, id), StatusOf(Next(c, s, tx), id))
    ensures StatusOf(s, id) == Executed || StatusOf(s, id) == Rejected ==>
            Next(c, s, tx).withdrawals[id] == s.withdrawals[id]
    ensures Executes(c, s, tx, id) ==> Approves(c, s, tx, id)
  {
    StepRequest(c, s, tx, id);
  }

  /** A finished withdrawal stays as it is for the rest of the run, and a known one stays known. */
  lemma {:induction false} Lifecycle(c: Crypto, r: Run, i: nat, j: nat, id: Word)
    requires IsRun(c, r) && i <= j < |r.states|
    ensures Terminal(StatusOf(r.states[i], id)) ==>
            StatusOf(r.states[j], id) == StatusOf(r.states[i], id) &&
              r.states[j].withdrawals[id] == r.states[i].withdrawals[id]
    ensures StatusOf(r.states[i], id) == Pending ==>
            StatusOf(r.states[j], id) != Absent
            && r.states[j].withdrawals[id].createdAt == r.states[i].withdrawals[id].createdAt
            && r.states[j].withdrawals[id].requiredQuorum == r.states[i].withdrawals[id].requiredQuorum
            && (StatusOf(r.states[j], id) == Pending ==> r.states[j].withdrawals[id] == r.states[i].withdrawals[id])
    decreases j
  {
    if i < j {
      Lifecycle(c, r, i, j - 1, id);
      StepAt(c, r, j - 1);
      StepRequest(c, r.states[j - 1], r.txs[j - 1], id);
    }
  }

  /** Once a rejection is possible by time, no later call can approve or execute that withdrawal. */
  lemma RejectableNeverFinalizes(c: Crypto, r: Run, i: nat, j: nat, id: Word)
    requires IsRun(c, r) && i <= j < |r.txs|
    requires StatusOf(r.states[i], id) == Pending &&
      r.txs[i].now > r.states[i].withdrawals[id].createdAt + OPERATION_EXPIRY
    ensures !Approves(c, r.states[j], r.txs[j], id)
  {
    Lifecycle(c, r, i, j, id);
  }

  /** In every reachable state a pending withdrawal can be ended after its hour: there are signers, and any
      one of them succeeds in rejecting it, moving no money. */
  lemma Resolvable(c: Crypto, r: Run, n: nat, id: Word, now: Timestamp)
    requires IsRun(c, r) && n < |r.states|
    requires StatusOf(r.states[n], id) == Pending && now > r.states[n].withdrawals[id].createdAt + OPERATION_EXPIRY
    ensures r.states[n].table.isSigner != {}
    ensures forall a :: a in r.states[n].table.isSigner ==>
      Exec(c, r.states[n], Tx(a, now, RejectWithdraw(id))).Ok?
      && StatusOf(Next(c, r.states[n], Tx(a, now, RejectWithdraw(id))), id) == Rejected
      && Next(c, r.states[n], Tx(a, now, RejectWithdraw(id))).balances == r.states[n].balances
  {
    ReachableInv(c, r, n);
    assert r.states[n].table.signers[0] in r.states[n].table.isSigner;
  }

  // ---- quorum safety ----

  /** Every known withdrawal was started at some earlier step, under the quorum it still asks for. */
  lemma {:induction false} StartOf(c: Crypto, r: Run, n: nat, id: Word) returns (k: nat)
    requires IsRun(c, r) && n < |r.states| && id in r.states[n].withdrawals
    ensures k < n && Starts(c, r.states[k], r.txs[k], id)
    ensures r.states[n].withdrawals[id].requiredQuorum == r.states[k].quorum
    ensures r.states[n].withdrawals[id].createdAt == r.txs[k].now
    ensures StatusOf(r.states[n], id) == Pending ==>
      var call, w := r.txs[k].call, r.states[n].withdrawals[id];
      w.user == call.user && w.token == call.token' && w.amount == call.amount'
  {
    if n == 0 {
      assert false;
    } else {
      StepAt(c, r, n - 1);
      StepRequest(c, r.states[n - 1], r.txs[n - 1], id);
      if id in r.states[n - 1].withdrawals {
        k := StartOf(c, r, n - 1, id);
      } else {
        k := n - 1;
      }
    }
  }

  /** Every recorded approval was made by that address itself, in an accepted call within the hour. */
  lemma {:induction false} ApprovalOf(c: Crypto, r: Run, n: nat, id: Word, a: Address) returns (j: nat)
    requires IsRun(c, r) && n < |r.states| && a in Approvers(r.states[n], id)
    ensures j < n && Approves(c, r.states[j], r.txs[j], id) && r.txs[j].sender == a
    ensures StatusOf(r.states[j], id) == Pending
    ensures r.txs[j].now <= r.states[j].withdrawals[id].createdAt + OPERATION_EXPIRY
  {
    if n == 0 {
      assert false;
    } else {
      StepAt(c, r, n - 1);
      StepApprovals(c, r.states[n - 1], r.txs[n - 1], id);
      if a in Approvers(r.states[n - 1], id) {
        j := ApprovalOf(c, r, n - 1, id, a);
      } else {
        j := n - 1;
      }
    }
  }

  /** The step at which an executed withdrawal was executed. */
  lemma {:induction false} ExecutionOf(c: Crypto, r: Run, n: nat, id: Word) returns (i: nat)
    requires IsRun(c, r) && n < |r.states| && StatusOf(r.states[n], id) == Executed
    ensures i < n && ExecutedAt(r, i, id)
  {
    InitialState(c, r);
    assert n > 0;
    var s := r.states[n - 1];
    StepAt(c, r, n - 1);
    StepLifecycle(c, s, r.txs[n - 1], id);
    if StatusOf(s, id) == Executed {
      i := ExecutionOf(c, r, n - 1, id);
    } else {
      i := n - 1;
    }
  }

  ghost predicate ApprovedWithinHour(c: Crypto, r: Run, k: nat, i: nat, id: Word, a: Address)
    requires k < |r.txs| && i < |r.txs| < |r.states|
  {
    exists j :: k < j <= i && Approves(c, r.states[j], r.txs[j], id) && r.txs[j].sender == a
                && r.txs[k].now <= r.txs[j].now <= r.txs[k].now + OPERATION_EXPIRY
  }

  /** Quorum safety. An executed withdrawal was started once, at step k, and executed at step i; the quorum
      in force at k is what it needed, and at least that many distinct addresses, all signers when the
      approvals were counted at i, had each called `finalizeWithdraw` on it themselves between k and i,
      within one hour, whatever signer additions, removals and quorum changes came in between. */
  lemma QuorumSafety(c: Crypto, r: Run, n: nat, id: Word) returns (k: nat, i: nat, approvers: set<Address>)
    requires IsRun(c, r) && n < |r.states| && StatusOf(r.states[n], id) == Executed
    ensures k < i < n && Starts(c, r.states[k], r.txs[k], id) && ExecutedAt(r, i, id)
    ensures |approvers| >= r.states[k].quorum >= 1
    ensures approvers <= r.states[i].table.isSigner
    ensures forall a :: a in approvers ==> ApprovedWithinHour(c, r, k, i, id, a)
  {
    i := ExecutionOf(c, r, n, id);
    k := StartOf(c, r, i, id);
    StepAt(c, r, i);
    StepAt(c, r, k);
    var s := r.states[i];
    StepLifecycle(c, s, r.txs[i], id);
    approvers := s.table.isSigner * (Approvers(s, id) + {r.txs[i].sender});
    CountAtExecution(c, s, r.txs[i], id);
    forall a | a in approvers ensures ApprovedWithinHour(c, r, k, i, id, a) {
      ApproverCalled(c, r, k, i, id, a);
    }
  }

  /** The execution step counted enough current signers. */
  lemma CountAtExecution(c: Crypto, s: State, tx: Tx, id: Word)
    requires Inv(s) && Executes(c, s, tx, id)
    ensures |s.table.isSigner * (Approvers(s, id) + {tx.sender})| >= s.withdrawals[id].requiredQuorum
    ensures Approves(c, s, tx, id)
  {
    StepRequest(c, s, tx, id);
    var approved := s.(approvals := s.approvals[id := Approvers(s, id) + {tx.sender}]);
    assert ValidApprovers(approved, id) == s.table.isSigner * (Approvers(s, id) + {tx.sender});
  }

  lemma ApproverCalled(c: Crypto, r: Run, k: nat, i: nat, id: Word, a: Address)
    requires IsRun(c, r) && k < i < |r.txs| && Starts(c, r.states[k], r.txs[k], id)
    requires ExecutedAt(r, i, id) && Approves(c, r.states[i], r.txs[i], id)
    requires r.states[i].withdrawals[id].createdAt == r.txs[k].now
    requires a in Approvers(r.states[i], id) || a == r.txs[i].sender
    ensures ApprovedWithinHour(c, r, k, i, id, a)
  {
    var j := i;
    if a in Approvers(r.states[i], id) {
      j := ApprovalOf(c, r, i, id, a);
      Lifecycle(c, r, j, i, id);
      if j <= k {
        Lifecycle(c, r, j, k, id);
        assert false;
      }
    }
    assert k < j <= i && Approves(c, r.states[j], r.txs[j], id) && r.txs[j].sender == a;
    assert r.txs[k].now <= r.txs[j].now;
  }

  /** An id is executed at most once in a run. */
  lemma ExecutedOnce(c: Crypto, r: Run, i: nat, j: nat, id: Word)
    requires IsRun(c, r) && i < |r.txs| && j < |r.txs|
    requires ExecutedAt(r, i, id) && ExecutedAt(r, j, id)
    ensures i == j
  {
    if i < j { Lifecycle(c, r, i + 1, j, id); }
    if j < i { Lifecycle(c, r, j + 1, i, id); }
  }
}
