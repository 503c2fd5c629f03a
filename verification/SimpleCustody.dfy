/** The contract itself, storage changed in place, proved to compute the function of SimpleSpec. */
module SimpleCustodyContract {
  import opened Evm
  import opened Encoding
  import opened SimpleSpec

  class SimpleCustody {
    const crypto: Crypto
    var requests: map<Word, SimpleRequest>
    var balances: map<Address, nat>
    var neodax: set<Address>
    var nitewatch: set<Address>
    var started: seq<Started>
    var deposited: seq<Deposited>
    var closed: seq<Closed>
    var payouts: seq<Payout>

    function Storage(): Chain
      reads this
    {
      Chain(requests, balances, neodax, nitewatch, started, deposited, closed, payouts)
    }

    constructor (crypto: Crypto, neodax: set<Address>, nitewatch: set<Address>)
      ensures this.crypto == crypto && Storage() == Genesis(neodax, nitewatch)
    {
      this.crypto, this.neodax, this.nitewatch := crypto, neodax, nitewatch;
      requests, balances, started, deposited, closed, payouts := map[], map[], [], [], [], [];
    }

    method Deposit(sender: Address, token: Address, amount: Word, msgValue: Word, delivery: Delivery)
      returns (failure: Option<Error>)
      modifies this
      ensures Follows(ExecDeposit(old(Storage()), sender, token, amount, msgValue, delivery), old(Storage()), Storage(),
                      failure)
    {
      if amount == 0 { return Some(ZeroAmount); }
      var received: nat := amount;
      if token == ZERO {
        if msgValue != amount { return Some(MsgValueMismatch); }
        balances := balances[ZERO := BalanceOf(balances, ZERO) + msgValue];
      } else {
        if msgValue != 0 { return Some(NonZeroMsgValueForERC20); }
        var balanceBefore := BalanceOf(balances, token);
        if !delivery.succeeds { return Some(TokenCallFailed); }
        if delivery.balanceAfter < balanceBefore { return Some(BalanceUnderflow); }
        balances := balances[token := delivery.balanceAfter];
        received := BalanceOf(balances, token) - balanceBefore;
      }
      deposited := deposited + [Deposited(sender, token, received)];
      return None;
    }

    method StartWithdraw(sender: Address, user: Address, token: Address, amount: Word, nonce: Word)
      returns (failure: Option<Error>, withdrawalId: Word)
      modifies this
      ensures withdrawalId == WithdrawalId(crypto, user, token, amount, nonce)
      ensures Follows(ExecStart(crypto, old(Storage()), sender, user, token, amount, nonce), old(Storage()), Storage(),
                      failure)
    {
      withdrawalId := WithdrawalId(crypto, user, token, amount, nonce);
      if sender !in neodax { return Some(MissingRole), withdrawalId; }
      if amount == 0 { return Some(ZeroAmount), withdrawalId; }
      if withdrawalId in requests && requests[withdrawalId].exists_ {
        return Some(WithdrawalAlreadyExists), withdrawalId;
      }
      requests := requests[withdrawalId := SimpleRequest(user, token, amount, true, false)];
      started := started + [Started(withdrawalId, user, token, amount, nonce)];
      return None, withdrawalId;
    }

    /** Storage is cleared before the transfer; a transfer that fails reverts the whole call. */
    method FinalizeWithdraw(sender: Address, id: Word, transferSucceeds: bool) returns (failure: Option<Error>)
      modifies this
      ensures Follows(ExecFinalize(crypto, old(Storage()), sender, id, transferSucceeds), old(Storage()), Storage(),
                      failure)
    {
      if sender !in nitewatch { return Some(MissingRole); }
      if !(id in requests && requests[id].exists_) { return Some(WithdrawalNotFound); }
      if requests[id].finalized { return Some(WithdrawalAlreadyFinalized); }

      var saved := requests;
      requests := requests[id := requests[id].(finalized := true)];
      var user, token, amount := requests[id].user, requests[id].token, requests[id].amount;
      requests := requests[id := requests[id].(user := ZERO, token := ZERO, amount := 0)];
      assert requests == saved[id := SimpleRequest(ZERO, ZERO, 0, true, true)];

      if BalanceOf(balances, token) < amount { requests := saved; return Some(InsufficientLiquidity); }
      if token == ZERO {
        if !transferSucceeds || user == crypto.self { requests := saved; return Some(ETHTransferFailed); }
      } else {
        if !transferSucceeds { requests := saved; return Some(TokenCallFailed); }
      }
      if user != crypto.self {
        balances := balances[token := BalanceOf(balances, token) - amount];
      }
      payouts := payouts + [Payout(id, user, token, amount)];
      closed := closed + [Closed(id, true)];
      return None;
    }

    method RejectWithdraw(sender: Address, id: Word) returns (failure: Option<Error>)
      modifies this
      ensures Follows(ExecReject(old(Storage()), sender, id), old(Storage()), Storage(), failure)
    {
      if sender !in nitewatch { return Some(MissingRole); }
      if !(id in requests && requests[id].exists_) { return Some(WithdrawalNotFound); }
      if requests[id].finalized { return Some(WithdrawalAlreadyFinalized); }
      requests := requests[id := requests[id].(finalized := true)];
      closed := closed + [Closed(id, false)];
      return None;
    }
  }
}
