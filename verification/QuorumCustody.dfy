/** The contract itself: storage changed in place, loops as the source runs them, and a revert that
    restores the storage found on entry. Each method is proved to compute the function of QuorumSpec. */
module QuorumCustodyContract {
  import opened Evm
  import opened Encoding
  import opened SignerTable
  import opened QuorumSpec

  class QuorumCustody {
    const crypto: Crypto
    var signers: seq<Address>
    var isSigner: set<Address>
    var quorum: Uint64
    var signerNonce: Word
    var withdrawals: map<Word, Request>
    var withdrawalApprovals: map<Word, set<Address>>
    var balances: map<Address, nat>

    function Storage(): State
      reads this
    {
      State(Table(signers, isSigner), quorum, signerNonce, withdrawals, withdrawalApprovals, balances)
    }

    ghost predicate Valid()
      reads this
    {
      Inv(Storage())
    }

    constructor Blank(crypto: Crypto)
      ensures this.crypto == crypto
      ensures Storage() == State(Table([], {}), 0, 0, map[], map[], map[])
    {
      this.crypto := crypto;
      signers, isSigner, quorum, signerNonce := [], {}, 0, 0;
      withdrawals, withdrawalApprovals, balances := map[], map[], map[];
    }

    /** The contract's constructor; without a contract when deployment reverts. */
    static method Deploy(crypto: Crypto, initialSigners: seq<Address>, quorum: Uint64)
      returns (failure: Option<Error>, custody: QuorumCustody?)
      ensures match Construct(initialSigners, quorum)
              case Ok(s) => failure.None? && custody != null && fresh(custody) && custody.Valid()
                            && custody.Storage() == s && custody.crypto == crypto
              case Revert(e) => failure == Some(e) && custody == null
    {
      custody := null;
      if |initialSigners| == 0 { return Some(EmptySignersArray), null; }
      if !(quorum != 0 && quorum <= |initialSigners|) { return Some(InvalidQuorum), null; }
      var self := new QuorumCustody.Blank(crypto);
      var i := 0;
      while i < |initialSigners|
        invariant 0 <= i <= |initialSigners|
        invariant PushAll(self.Storage().table, initialSigners[i..]) == PushAll(Table([], {}), initialSigners)
        invariant self.Storage() == State(self.Storage().table, 0, 0, map[], map[], map[])
      {
        failure := self.AddSigner(initialSigners[i]);
        if failure.Some? { return failure, null; }
        assert initialSigners[i..][1..] == initialSigners[i + 1..];
        i := i + 1;
      }
      self.quorum := quorum;
      ConstructInv(initialSigners, quorum);
      return None, self;
    }

    /** Undo everything since `saved` was taken. */
    method Restore(saved: State)
      modifies this
      ensures Storage() == saved
    {
      signers, isSigner := saved.table.signers, saved.table.isSigner;
      quorum, signerNonce := saved.quorum, saved.signerNonce;
      withdrawals, withdrawalApprovals, balances := saved.withdrawals, saved.approvals, saved.balances;
    }

    method AddSigner(s: Address) returns (failure: Option<Error>)
      modifies this
      ensures match PushSigner(old(Storage()).table, s)
              case Ok(t) => failure.None? && Storage() == old(Storage()).(table := t)
              case Revert(e) => failure == Some(e) && Storage() == old(Storage())
    {
      if s == ZERO { return Some(InvalidSigner); }
      if s in isSigner { return Some(AlreadySigner); }
      signers := signers + [s];
      isSigner := isSigner + {s};
      return None;
    }

    method VerifyCoSignatures(sender: Address, digest: Word, signatures: seq<seq<byte>>)
      returns (failure: Option<Error>)
      ensures failure == VerifySignatures(crypto, isSigner, quorum, sender, digest, signatures)
    {
      var validApprovals := 1;
      var last := ZERO;
      var i := 0;
      while i < |signatures|
        invariant 0 <= i <= |signatures| && validApprovals == 1 + i
        invariant SignatureLoop(crypto, isSigner, sender, digest, signatures[i..], last)
               == SignatureLoop(crypto, isSigner, sender, digest, signatures, ZERO)
      {
        assert signatures[i..][0] == signatures[i] && signatures[i..][1..] == signatures[i + 1..];
        var recovered := crypto.recover(digest, signatures[i]);
        if recovered.None? { return Some(MalformedSignature); }
        if !(recovered.value > last) { return Some(SignaturesNotSorted); }
        if recovered.value !in isSigner { return Some(InvalidSignature); }
        if recovered.value == sender { return Some(SignerIsCaller); }
        last := recovered.value;
        validApprovals := validApprovals + 1;
        i := i + 1;
      }
      if validApprovals < quorum { return Some(InsufficientSignatures); }
      return None;
    }

    method AddSigners(sender: Address, now: Timestamp, newSigners: seq<Address>, newQuorum: Uint64, deadline: Word,
                      signatures: seq<seq<byte>>) returns (failure: Option<Error>)
      requires Valid()
      modifies this
      ensures Valid()
      ensures Follows(ExecAdmin(crypto, old(Storage()), sender, now,
                                AdminOp(Add, newSigners, newQuorum, deadline, signatures)),
                      old(Storage()), Storage(), failure)
    {
      if sender !in isSigner { return Some(NotSigner); }
      if !(now <= deadline) { return Some(DeadlineExpired); }
      if |newSigners| == 0 { return Some(EmptySignersArray); }
      if !(newQuorum != 0 && newQuorum >= quorum && newQuorum <= |signers| + |newSigners|) {
        return Some(InvalidQuorum);
      }
      var op := AdminOp(Add, newSigners, newQuorum, deadline, signatures);
      failure := VerifyCoSignatures(sender, Digest(crypto, op, signerNonce), signatures);
      if failure.Some? { return; }
      if signerNonce == WORD_LIMIT - 1 { return Some(ArithmeticOverflow); }

      var saved := Storage();
      signerNonce := signerNonce + 1;
      var i := 0;
      while i < |newSigners|
        invariant 0 <= i <= |newSigners|
        invariant failure.None?
        invariant PushAll(Storage().table, newSigners[i..]) == PushAll(saved.table, newSigners)
        invariant Storage() == saved.(table := Storage().table, signerNonce := saved.signerNonce + 1)
      {
        failure := AddSigner(newSigners[i]);
        if failure.Some? { Restore(saved); return; }
        assert newSigners[i..][1..] == newSigners[i + 1..];
        i := i + 1;
      }
      if quorum != newQuorum { quorum := newQuorum; }
      AdminExact(crypto, saved, sender, now, op);
    }

    method RemoveSigners(sender: Address, now: Timestamp, signersToRemove: seq<Address>, newQuorum: Uint64,
                         deadline: Word, signatures: seq<seq<byte>>) returns (failure: Option<Error>)
      requires Valid()
      modifies this
      ensures Valid()
      ensures Follows(ExecAdmin(crypto, old(Storage()), sender, now,
                                AdminOp(Remove, signersToRemove, newQuorum, deadline, signatures)),
                      old(Storage()), Storage(), failure)
    {
      if sender !in isSigner { return Some(NotSigner); }
      if !(now <= deadline) { return Some(DeadlineExpired); }
      if |signersToRemove| == 0 { return Some(EmptySignersArray); }
      if !(|signersToRemove| < |signers|) { return Some(CannotRemoveLastSigner); }
      var remainingCount := |signers| - |signersToRemove|;
      var minQuorum := if quorum < remainingCount then quorum else remainingCount;
      if !(newQuorum != 0 && newQuorum >= minQuorum && newQuorum <= remainingCount) { return Some(InvalidQuorum); }
      var op := AdminOp(Remove, signersToRemove, newQuorum, deadline, signatures);
      failure := VerifyCoSignatures(sender, Digest(crypto, op, signerNonce), signatures);
      if failure.Some? { return; }
      if signerNonce == WORD_LIMIT - 1 { return Some(ArithmeticOverflow); }

      var saved := Storage();
      signerNonce := signerNonce + 1;
      var i := 0;
      while i < |signersToRemove|
        invariant 0 <= i <= |signersToRemove|
        invariant RemoveAll(Storage().table, signersToRemove[i..]) == RemoveAll(saved.table, signersToRemove)
        invariant Storage() == saved.(table := Storage().table, signerNonce := saved.signerNonce + 1)
      {
        var s := signersToRemove[i];
        if s !in isSigner { Restore(saved); return Some(NotASigner); }
        isSigner := isSigner - {s};
        SearchAndPop(s);
        assert signersToRemove[i..][1..] == signersToRemove[i + 1..];
        i := i + 1;
      }
      if quorum != newQuorum { quorum := newQuorum; }
      AdminExact(crypto, saved, sender, now, op);
    }

    /** The inner loop of the removal: find the signer, overwrite it with the last one, pop. */
    method SearchAndPop(s: Address)
      modifies `signers
      ensures signers == SwapPop(old(signers), s)
    {
      var j := 0;
      while j < |signers|
        invariant 0 <= j <= |signers| && signers == old(signers)
        invariant s !in signers[..j]
      {
        if signers[j] == s {
          assert IndexOf(signers, s) == j;
          signers := signers[j := signers[|signers| - 1]];
          signers := signers[..|signers| - 1];
          return;
        }
        j := j + 1;
      }
      assert signers[..j] == signers;
    }

    /** The callee of an external call runs: any sequence of signer-management calls, each on its own. */
    method RunCallback(now: Timestamp, calls: seq<AdminTx>)
      requires Valid()
      modifies this
      ensures Storage() == Callback(crypto, old(Storage()), now, calls)
      ensures Valid()
    {
      var i := 0;
      while i < |calls|
        invariant 0 <= i <= |calls| && Valid()
        invariant Callback(crypto, Storage(), now, calls[i..]) == Callback(crypto, old(Storage()), now, calls)
      {
        var op := calls[i].op;
        var failure;
        assert calls[i..][1..] == calls[i + 1..];
        if op.kind.Add? {
          failure := AddSigners(calls[i].sender, now, op.addrs, op.newQuorum, op.deadline, op.signatures);
        } else {
          failure := RemoveSigners(calls[i].sender, now, op.addrs, op.newQuorum, op.deadline, op.signatures);
        }
        i := i + 1;
      }
    }

    /** The value sent along is there from the start, and goes back when the call reverts. */
    method Deposit(sender: Address, now: Timestamp, token: Address, amount: Word, msgValue: Word, transfer: External)
      returns (failure: Option<Error>)
      requires Valid()
      modifies this
      ensures Valid()
      ensures Follows(ExecDeposit(crypto, old(Storage()), now, token, amount, msgValue, transfer), old(Storage()),
                      Storage(), failure)
    {
      var saved := Storage();
      if msgValue != 0 { balances := balances[ZERO := BalanceOf(balances, ZERO) + msgValue]; }
      if amount == 0 { Restore(saved); return Some(ZeroAmount); }
      if token == ZERO {
        if msgValue != amount { Restore(saved); return Some(MsgValueMismatch); }
      } else {
        if msgValue != 0 { Restore(saved); return Some(NonZeroMsgValueForERC20); }
        if !transfer.succeeds { return Some(TokenCallFailed); }
        balances := balances[token := BalanceOf(balances, token) + amount];
        RunCallback(now, transfer.callback);
      }
      return None;
    }

    method StartWithdraw(sender: Address, now: Timestamp, user: Address, token: Address, amount: Word, nonce: Word)
      returns (failure: Option<Error>, id: Word)
      requires Valid()
      modifies this
      ensures Valid()
      ensures id == WithdrawalId(crypto, user, token, amount, nonce)
      ensures Follows(ExecStart(crypto, old(Storage()), sender, now, user, token, amount, nonce), old(Storage()),
                      Storage(), failure)
    {
      id := WithdrawalId(crypto, user, token, amount, nonce);
      if sender !in isSigner { return Some(NotSigner), id; }
      if user == ZERO { return Some(InvalidUser), id; }
      if amount == 0 { return Some(ZeroAmount), id; }
      if id in withdrawals && withdrawals[id].createdAt != 0 { return Some(WithdrawalAlreadyExists), id; }
      withdrawals := withdrawals[id := Request(user, token, amount, false, now, quorum)];
      return None, id;
    }

    method CountValidApprovals(id: Word) returns (count: nat)
      requires Valid()
      ensures count == |ValidApprovers(Storage(), id)|
    {
      var approvers := if id in withdrawalApprovals then withdrawalApprovals[id] else {};
      count := 0;
      var i := 0;
      while i < |signers|
        invariant 0 <= i <= |signers|
        invariant count == |Elems(signers[..i]) * approvers|
      {
        CountOneMore(signers, i, approvers);
        if signers[i] in approvers { count := count + 1; }
        i := i + 1;
      }
      assert signers[..i] == signers;
    }

    method FinalizeWithdraw(sender: Address, now: Timestamp, id: Word, payout: External)
      returns (failure: Option<Error>)
      requires Valid()
      modifies this
      ensures Valid()
      ensures Follows(ExecFinalize(crypto, old(Storage()), sender, now, id, payout), old(Storage()), Storage(), failure)
    {
      if sender !in isSigner { return Some(NotSigner); }
      if !(id in withdrawals && withdrawals[id].createdAt != 0) { return Some(WithdrawalNotFound); }
      if withdrawals[id].finalized { return Some(WithdrawalAlreadyFinalized); }
      if !(now <= withdrawals[id].createdAt + OPERATION_EXPIRY) { return Some(WithdrawalExpired); }
      var approvers := if id in withdrawalApprovals then withdrawalApprovals[id] else {};
      if sender in approvers { return Some(SignerAlreadyApproved); }

      var saved := Storage();
      withdrawalApprovals := withdrawalApprovals[id := approvers + {sender}];
      var validApprovals := CountValidApprovals(id);
      if validApprovals >= withdrawals[id].requiredQuorum {
        failure := ExecuteWithdrawal(now, id, payout);
        if failure.Some? { Restore(saved); return; }
      }
      return None;
    }

    method ExecuteWithdrawal(now: Timestamp, id: Word, payout: External) returns (failure: Option<Error>)
      requires Valid() && id in withdrawals && !withdrawals[id].finalized
      modifies this
      ensures match Execute(crypto, old(Storage()), now, id, payout)
              case Ok(s) => failure.None? && Storage() == s && Valid()
              case Revert(e) => failure == Some(e)
    {
      ghost var before := Storage();
      var user, token, amount := withdrawals[id].user, withdrawals[id].token, withdrawals[id].amount;
      withdrawals := withdrawals[id := withdrawals[id].(finalized := true)];
      if BalanceOf(balances, token) < amount { return Some(InsufficientLiquidity); }
      if token == ZERO && (user == crypto.self || !payout.succeeds) { return Some(ETHTransferFailed); }
      if token != ZERO && !payout.succeeds { return Some(TokenCallFailed); }
      if user != crypto.self {
        balances := balances[token := BalanceOf(balances, token) - amount];
      }
      CallbackExact(crypto, Storage(), now, payout.callback);
      RunCallback(now, payout.callback);
      ClearRequest(id);
      ExecuteInv(crypto, before, now, id, payout);
      return None;
    }

    method ClearRequest(id: Word)
      requires id in withdrawals
      modifies `withdrawals
      ensures withdrawals == old(withdrawals)[id := old(withdrawals)[id].(user := ZERO, token := ZERO, amount := 0)]
    {
      withdrawals := withdrawals[id := withdrawals[id].(user := ZERO)];
      withdrawals := withdrawals[id := withdrawals[id].(token := ZERO)];
      withdrawals := withdrawals[id := withdrawals[id].(amount := 0)];
    }

    method RejectWithdraw(sender: Address, now: Timestamp, id: Word) returns (failure: Option<Error>)
      requires Valid()
      modifies this
      ensures Valid()
      ensures Follows(ExecReject(old(Storage()), sender, now, id), old(Storage()), Storage(), failure)
    {
      if sender !in isSigner { return Some(NotSigner); }
      if !(id in withdrawals && withdrawals[id].createdAt != 0) { return Some(WithdrawalNotFound); }
      if withdrawals[id].finalized { return Some(WithdrawalAlreadyFinalized); }
      if !(now > withdrawals[id].createdAt + OPERATION_EXPIRY) { return Some(WithdrawalNotExpired); }
      withdrawals := withdrawals[id := withdrawals[id].(finalized := true)];
      return None;
    }
  }
}
