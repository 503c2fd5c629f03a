/** Conservation of money in every run of `QuorumCustody`, for tokens that move exactly the amount asked for. */
module QuorumMoney {
  import opened Evm
  import opened Encoding
  import opened SignerTable
  import opened QuorumSpec
  import opened QuorumRuns

  /** What a transaction brings in, by token. */
  function Inflow(c: Crypto, s: State, tx: Tx, token: Address): nat {
    if tx.call.Deposit? && tx.call.token == token && Exec(c, s, tx).Ok? then tx.call.amount else 0
  }

  /** What a transaction executes, by token. */
  function Outflow(c: Crypto, s: State, tx: Tx, token: Address): nat {
    if tx.call.FinalizeWithdraw? && StatusOf(s, tx.call.id) == Pending &&
      StatusOf(Next(c, s, tx), tx.call.id) == Executed
       && s.withdrawals[tx.call.id].token == token
    then s.withdrawals[tx.call.id].amount else 0
  }

  /** The part of the outflow whose recipient is the contract itself. */
  function SelfFlow(c: Crypto, s: State, tx: Tx, token: Address): nat {
    if Outflow(c, s, tx, token) > 0 && s.withdrawals[tx.call.id].user == c.self then Outflow(c, s, tx, token) else 0
  }

  function TotalIn(c: Crypto, r: Run, n: nat, token: Address): nat
    requires n <= |r.txs| < |r.states|
  {
    if n == 0 then 0 else TotalIn(c, r, n - 1, token) + Inflow(c, r.states[n - 1], r.txs[n - 1], token)
  }

  function TotalOut(c: Crypto, r: Run, n: nat, token: Address): nat
    requires n <= |r.txs| < |r.states|
  {
    if n == 0 then 0 else TotalOut(c, r, n - 1, token) + Outflow(c, r.states[n - 1], r.txs[n - 1], token)
  }

  /** The self-flows of the first n transactions, one by one. */
  function SelfFlows(c: Crypto, r: Run, n: nat, token: Address): (flows: seq<nat>)
    requires n <= |r.txs| < |r.states|
    ensures |flows| == n
  {
    if n == 0 then [] else SelfFlows(c, r, n - 1, token) + [SelfFlow(c, r.states[n - 1], r.txs[n - 1], token)]
  }

  function Sum(xs: seq<nat>): nat {
    if xs == [] then 0 else Sum(xs[..|xs| - 1]) + xs[|xs| - 1]
  }

  lemma SumSnoc(xs: seq<nat>, x: nat)
    ensures Sum(xs + [x]) == Sum(xs) + x
  {
    assert (xs + [x])[..|xs|] == xs;
  }

  lemma {:induction false} SumZero(xs: seq<nat>)
    ensures Sum(xs) == 0 <==> forall i :: 0 <= i < |xs| ==> xs[i] == 0
  {
    if xs != [] {
      SumZero(xs[..|xs| - 1]);
    }
  }

  lemma StepMoney(c: Crypto, s: State, tx: Tx, token: Address)
    requires Inv(s)
    ensures BalanceOf(Next(c, s, tx).balances, token)
         == BalanceOf(s.balances, token) + Inflow(c, s, tx, token) - Outflow(c, s, tx, token)
           + SelfFlow(c, s, tx, token)
  {
    StepExact(c, s, tx);
    if tx.call.FinalizeWithdraw? && Exec(c, s, tx).Ok? {
      FinalizeExact(c, s, tx.sender, tx.now, tx.call.id, tx.call.payout);
    }
  }

  /** Conservation: in every reachable state the balance of each token is what was deposited, less what was
      executed, plus what was executed with the contract itself as recipient (a transfer that moves nothing). */
  lemma {:induction false} Conservation(c: Crypto, r: Run, n: nat, token: Address)
    requires IsRun(c, r) && n < |r.states|
    ensures BalanceOf(r.states[n].balances, token)
         == TotalIn(c, r, n, token) - TotalOut(c, r, n, token) + Sum(SelfFlows(c, r, n, token))
  {
    if n == 0 {
      InitialState(c, r);
    } else {
      Conservation(c, r, n - 1, token);
      StepAt(c, r, n - 1);
      StepMoney(c, r.states[n - 1], r.txs[n - 1], token);
      SumSnoc(SelfFlows(c, r, n - 1, token), SelfFlow(c, r.states[n - 1], r.txs[n - 1], token));
    }
  }

  lemma {:induction false} SelfFlowsAt(c: Crypto, r: Run, n: nat, token: Address, i: nat)
    requires i < n <= |r.txs| < |r.states|
    ensures SelfFlows(c, r, n, token)[i] == SelfFlow(c, r.states[i], r.txs[i], token)
  {
    if i < n - 1 {
      SelfFlowsAt(c, r, n - 1, token, i);
    }
  }

  /** Transaction i executed a withdrawal of that token whose record names the contract as recipient. */
  ghost predicate SelfPayoutAt(c: Crypto, r: Run, i: nat, id: Word, token: Address)
    requires i < |r.txs| < |r.states|
  {
    && ExecutedAt(r, i, id)
    && r.states[i].withdrawals[id].token == token && r.states[i].withdrawals[id].user == c.self
  }

  lemma SelfFlowIsSelfPayout(c: Crypto, r: Run, i: nat, token: Address)
    requires IsRun(c, r) && i < |r.txs|
    ensures SelfFlow(c, r.states[i], r.txs[i], token) != 0 <==> exists id :: SelfPayoutAt(c, r, i, id, token)
  {
    StepAt(c, r, i);
    var s, tx := r.states[i], r.txs[i];
    if SelfFlow(c, s, tx, token) != 0 {
      assert SelfPayoutAt(c, r, i, tx.call.id, token);
    }
    if id :| SelfPayoutAt(c, r, i, id, token) {
      StepLifecycle(c, s, tx, id);
    }
  }

  lemma NoSelfFlowIff(c: Crypto, r: Run, n: nat, token: Address)
    requires IsRun(c, r) && n <= |r.txs|
    ensures Sum(SelfFlows(c, r, n, token)) == 0 <==> forall i, id :: 0 <= i < n ==> !SelfPayoutAt(c, r, i, id, token)
  {
    var flows := SelfFlows(c, r, n, token);
    SumZero(flows);
    forall i | 0 <= i < n ensures flows[i] == 0 <==> forall id :: !SelfPayoutAt(c, r, i, id, token) {
      SelfFlowsAt(c, r, n, token, i);
      SelfFlowIsSelfPayout(c, r, i, token);
    }
  }

  /** Hence balance = deposits - executed withdrawals exactly as long as no withdrawal of that token has been
      executed whose record names the contract itself, a recipient that `startWithdraw` does not exclude. */
  lemma ConservationIff(c: Crypto, r: Run, n: nat, token: Address)
    requires IsRun(c, r) && n < |r.states|
    ensures BalanceOf(r.states[n].balances, token) == TotalIn(c, r, n, token) - TotalOut(c, r, n, token)
       <==> forall i, id :: 0 <= i < n && ExecutedAt(r, i, id) && r.states[i].withdrawals[id].token == token ==>
              r.states[i].withdrawals[id].user != c.self
  {
    Conservation(c, r, n, token);
    NoSelfFlowIff(c, r, n, token);
    assert forall i, id :: 0 <= i < n ==> (SelfPayoutAt(c, r, i, id, token) <==>
      ExecutedAt(r, i, id) && r.states[i].withdrawals[id].token == token && r.states[i].withdrawals[id].user == c.self);
  }

  /** Seen from the callers: the plain equation holds in every run in which no accepted `startWithdraw` of that
      token names the contract as recipient. */
  lemma ConservedWithoutSelfStarts(c: Crypto, r: Run, n: nat, token: Address)
    requires IsRun(c, r) && n < |r.states|
    requires forall k :: 0 <= k < n && r.txs[k].call.StartWithdraw? && r.txs[k].call.token' == token ==>
      Accepted(c, r, k) ==> r.txs[k].call.user != c.self
    ensures BalanceOf(r.states[n].balances, token) == TotalIn(c, r, n, token) - TotalOut(c, r, n, token)
  {
    forall i, id | 0 <= i < n && ExecutedAt(r, i, id) && r.states[i].withdrawals[id].token == token
      ensures r.states[i].withdrawals[id].user != c.self
    {
      var k := StartOf(c, r, i, id);
      assert Accepted(c, r, k);
    }
    ConservationIff(c, r, n, token);
  }

  /** Money is never created: what was paid to others never exceeds what was deposited. */
  lemma NeverOverdrawn(c: Crypto, r: Run, n: nat, token: Address)
    requires IsRun(c, r) && n < |r.states|
    ensures TotalOut(c, r, n, token) - Sum(SelfFlows(c, r, n, token)) <= TotalIn(c, r, n, token)
  {
    Conservation(c, r, n, token);
  }

  /** Each execution pays exactly what its `startWithdraw` fixed: that amount of that token leaves custody
      (unless the recipient is the contract itself), the contract could cover it, and no other balance moves. */
  lemma PaysStartedAmount(c: Crypto, r: Run, i: nat, id: Word, token: Address) returns (k: nat)
    requires IsRun(c, r) && i < |r.txs| && ExecutedAt(r, i, id)
    ensures k < i && Starts(c, r.states[k], r.txs[k], id)
    ensures var call := r.txs[k].call;
      && BalanceOf(r.states[i].balances, call.token') >= call.amount' > 0
      && BalanceOf(r.states[i + 1].balances, token)
         == BalanceOf(r.states[i].balances, token)
            - (if token == call.token' && call.user != c.self then call.amount' else 0)
  {
    k := StartOf(c, r, i, id);
    StepAt(c, r, i);
    StepLifecycle(c, r.states[i], r.txs[i], id);
    FinalizeExact(c, r.states[i], r.txs[i].sender, r.txs[i].now, id, r.txs[i].call.payout);
  }

  // A run with one signer (address 1): deposit 10 of token 5, start a withdrawal of 4 to the contract, finalize it.

  function DemoTxs(c: Crypto): seq<Tx> {
    [Tx(1, 1, Deposit(5, 10, 0, External([], true))),
     Tx(1, 1, StartWithdraw(c.self, 5, 4, 0)),
     Tx(1, 1, FinalizeWithdraw(WithdrawalId(c, c.self, 5, 4, 0), External([], true)))]
  }

  function DemoStates(c: Crypto): seq<State> {
    var id := WithdrawalId(c, c.self, 5, 4, 0);
    var s0 := State(Table([1], {1}), 1, 0, map[], map[], map[]);
    var s1 := s0.(balances := map[5 := 10]);
    var s2 := s1.(withdrawals := map[id := Request(c.self, 5, 4, false, 1, 1)]);
    [s0, s1, s2, s2.(approvals := map[id := {1}], withdrawals := map[id := Request(ZERO, ZERO, 0, true, 1, 1)])]
  }

  lemma DemoFinalize(c: Crypto)
    requires c.self != ZERO
    ensures Next(c, DemoStates(c)[2], DemoTxs(c)[2]) == DemoStates(c)[3]
    ensures Exec(c, DemoStates(c)[2], DemoTxs(c)[2]).Ok?
  {
    var s2, id := DemoStates(c)[2], WithdrawalId(c, c.self, 5, 4, 0);
    var approved := Approved(s2, 1, id);
    assert ValidApprovers(approved, id) == {1};
    assert Execute(c, approved, 1, id, External([], true)).Ok?;
  }

  lemma DemoBegins(c: Crypto)
    ensures Construct([1], 1) == Ok(DemoStates(c)[0])
  {
    ConstructInv([1], 1);
    assert Elems([1]) == {1};
  }

  lemma DemoDeposit(c: Crypto)
    ensures Next(c, DemoStates(c)[0], DemoTxs(c)[0]) == DemoStates(c)[1]
  {
  }

  lemma DemoStart(c: Crypto)
    requires c.self != ZERO
    ensures Next(c, DemoStates(c)[1], DemoTxs(c)[1]) == DemoStates(c)[2]
  {
  }

  lemma DemoLinked(c: Crypto, i: nat)
    requires c.self != ZERO && i < 3
    ensures Linked(c, Run(DemoStates(c), DemoTxs(c)), i)
  {
    if i == 0 { DemoDeposit(c); } else if i == 1 { DemoStart(c); } else { DemoFinalize(c); }
  }

  lemma DemoIsRun(c: Crypto)
    requires c.self != ZERO && c.self != 1
    ensures IsRun(c, Run(DemoStates(c), DemoTxs(c)))
  {
    DemoBegins(c);
    forall i | 0 <= i < 3 ensures Linked(c, Run(DemoStates(c), DemoTxs(c)), i) {
      DemoLinked(c, i);
    }
  }

  lemma DemoFlows(c: Crypto)
    requires c.self != ZERO
    ensures Inflow(c, DemoStates(c)[0], DemoTxs(c)[0], 5) == 10 && Outflow(c, DemoStates(c)[0], DemoTxs(c)[0], 5) == 0
    ensures Inflow(c, DemoStates(c)[1], DemoTxs(c)[1], 5) == 0 && Outflow(c, DemoStates(c)[1], DemoTxs(c)[1], 5) == 0
    ensures Inflow(c, DemoStates(c)[2], DemoTxs(c)[2], 5) == 0 && Outflow(c, DemoStates(c)[2], DemoTxs(c)[2], 5) == 4
  {
    DemoFinalize(c);
  }

  lemma ThreeSteps(c: Crypto, r: Run, token: Address)
    requires |r.txs| == 3 && |r.states| == 4
    ensures TotalIn(c, r, 3, token) == Inflow(c, r.states[0], r.txs[0], token) + Inflow(c, r.states[1], r.txs[1], token)
                                     + Inflow(c, r.states[2], r.txs[2], token)
    ensures TotalOut(c, r, 3, token)
      == Outflow(c, r.states[0], r.txs[0], token) + Outflow(c, r.states[1], r.txs[1], token)
                                      + Outflow(c, r.states[2], r.txs[2], token)
  {
    assert TotalIn(c, r, 1, token) == Inflow(c, r.states[0], r.txs[0], token);
    assert TotalOut(c, r, 1, token) == Outflow(c, r.states[0], r.txs[0], token);
    assert TotalIn(c, r, 2, token) == TotalIn(c, r, 1, token) + Inflow(c, r.states[1], r.txs[1], token);
    assert TotalOut(c, r, 2, token) == TotalOut(c, r, 1, token) + Outflow(c, r.states[1], r.txs[1], token);
  }

  /** The plain equation does fail: a token withdrawal whose recipient is the contract itself is executed
      and leaves the balance as it was, here 10 after deposits of 10 and an executed withdrawal of 4. */
  lemma SelfPayoutKeepsBalance(c: Crypto) returns (r: Run)
    requires c.self != ZERO && c.self != 1
    ensures IsRun(c, r) && |r.txs| == 3
    ensures BalanceOf(r.states[3].balances, 5) == 10 && TotalIn(c, r, 3, 5) == 10 && TotalOut(c, r, 3, 5) == 4
  {
    r := Run(DemoStates(c), DemoTxs(c));
    DemoIsRun(c);
    DemoFlows(c);
    ThreeSteps(c, r, 5);
  }
}
