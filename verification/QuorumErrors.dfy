/** What the error of a reverted transaction says: the first condition for its acceptance that is not met, in the order
    in
    which the contract checks them. */
module QuorumErrors {
  import opened Evm
  import opened Encoding
  import opened SignerTable
  import opened QuorumSpec

  /** The quorum asked for suits the number of signers there will be. */
  predicate QuorumSuits(s: State, op: AdminOp) {
    if op.kind.Add? then s.quorum <= op.newQuorum <= |s.table.signers| + |op.addrs|
    else
      && 0 < op.newQuorum <= |s.table.signers| - |op.addrs|
      && (op.newQuorum >= s.quorum || op.newQuorum >= |s.table.signers| - |op.addrs|)
  }

  /** All that is checked before the signatures. */
  predicate GuardsPassed(s: State, sender: Address, now: Timestamp, op: AdminOp) {
    && sender in s.table.isSigner && now <= op.deadline && op.addrs != []
    && (op.kind.Remove? ==> |op.addrs| < |s.table.signers|) && QuorumSuits(s, op)
  }

  ghost predicate Signed(c: Crypto, s: State, sender: Address, op: AdminOp) {
    exists authors :: CoSignedBy(c, s, sender, Digest(c, op, s.signerNonce), op.signatures, authors)
  }

  /** The first condition that a signer change does not meet. */
  ghost predicate FirstUnmet(c: Crypto, s: State, sender: Address, now: Timestamp, op: AdminOp, error: Error) {
    match error
    case NotSigner => sender !in s.table.isSigner
    case DeadlineExpired => sender in s.table.isSigner && now > op.deadline
    case EmptySignersArray => sender in s.table.isSigner && now <= op.deadline && op.addrs == []
    case CannotRemoveLastSigner =>
      sender in s.table.isSigner && now <= op.deadline && op.addrs != []
      && op.kind.Remove? && |op.addrs| >= |s.table.signers|
    case InvalidQuorum =>
      sender in s.table.isSigner && now <= op.deadline && op.addrs != []
      && (op.kind.Remove? ==> |op.addrs| < |s.table.signers|) && !QuorumSuits(s, op)
    case InsufficientSignatures =>
      GuardsPassed(s, sender, now, op) && 1 + |op.signatures| < s.quorum
      && forall i :: 0 <= i < |op.signatures| ==>
           PassesAt(c, s.table.isSigner, sender, Digest(c, op, s.signerNonce), op.signatures, ZERO, i)
    case ArithmeticOverflow =>
      GuardsPassed(s, sender, now, op) && Signed(c, s, sender, op) && s.signerNonce == WORD_LIMIT - 1
    case InvalidSigner =>
      GuardsPassed(s, sender, now, op) && Signed(c, s, sender, op) && op.kind.Add?
      && exists i :: 0 <= i < |op.addrs| && NewSignersUpTo(s, op.addrs, i) && op.addrs[i] == ZERO
    case AlreadySigner =>
      GuardsPassed(s, sender, now, op) && Signed(c, s, sender, op) && op.kind.Add?
      && exists i :: 0 <= i < |op.addrs| && NewSignersUpTo(s, op.addrs, i) && op.addrs[i] != ZERO
                     && (op.addrs[i] in s.table.isSigner || op.addrs[i] in op.addrs[..i])
    case NotASigner =>
      GuardsPassed(s, sender, now, op) && Signed(c, s, sender, op) && op.kind.Remove?
      && exists i :: 0 <= i < |op.addrs| && (op.addrs[i] !in s.table.isSigner || op.addrs[i] in op.addrs[..i])
    case _ =>
      GuardsPassed(s, sender, now, op)
      && exists i :: 0 <= i < |op.signatures|
                     && FirstObjection(c, s.table.isSigner, sender, Digest(c, op, s.signerNonce), op.signatures, ZERO,
                                       i, error)
  }

  predicate NewSignersUpTo(s: State, addrs: seq<Address>, n: nat)
    requires n <= |addrs|
  {
    forall k :: 0 <= k < n ==> addrs[k] != ZERO && addrs[k] !in s.table.isSigner && addrs[k] !in addrs[..k]
  }

  lemma {:induction false} AllPass(c: Crypto, isSigner: set<Address>, sender: Address, digest: Word,
                                   signatures: seq<seq<byte>>, last: Address)
    requires SignatureLoop(c, isSigner, sender, digest, signatures, last).None?
    ensures forall i :: 0 <= i < |signatures| ==> PassesAt(c, isSigner, sender, digest, signatures, last, i)
    decreases |signatures|
  {
    if signatures != [] {
      var rest, author := signatures[1..], c.recover(digest, signatures[0]).value;
      AllPass(c, isSigner, sender, digest, rest, author);
      forall i | 0 < i < |signatures| ensures PassesAt(c, isSigner, sender, digest, signatures, last, i) {
        assert PassesAt(c, isSigner, sender, digest, rest, author, i - 1);
        assert rest[i - 1] == signatures[i] && (i > 1 ==> rest[i - 2] == signatures[i - 1]);
      }
    }
  }

  lemma SignaturesError(c: Crypto, s: State, sender: Address, now: Timestamp, op: AdminOp, error: Error)
    requires GuardsPassed(s, sender, now, op)
    requires VerifySignatures(c, s.table.isSigner, s.quorum, sender, Digest(c, op, s.signerNonce), op.signatures)
          == Some(error)
    ensures FirstUnmet(c, s, sender, now, op, error)
  {
    var digest := Digest(c, op, s.signerNonce);
    if SignatureLoop(c, s.table.isSigner, sender, digest, op.signatures, ZERO).Some? {
      var i := SignatureLoopError(c, s.table.isSigner, sender, digest, op.signatures, ZERO);
      assert FirstObjection(c, s.table.isSigner, sender, digest, op.signatures, ZERO, i, error);
    } else {
      AllPass(c, s.table.isSigner, sender, digest, op.signatures, ZERO);
    }
  }

  lemma PushError(c: Crypto, s: State, sender: Address, now: Timestamp, op: AdminOp)
    requires GuardsPassed(s, sender, now, op) && Signed(c, s, sender, op)
    requires op.kind.Add? && PushAll(s.table, op.addrs).Revert?
    ensures FirstUnmet(c, s, sender, now, op, PushAll(s.table, op.addrs).error)
  {
    var i := PushAllError(s.table, op.addrs);
    assert NewSignersUpTo(s, op.addrs, i);
  }

  lemma RemoveError(c: Crypto, s: State, sender: Address, now: Timestamp, op: AdminOp)
    requires GuardsPassed(s, sender, now, op) && Signed(c, s, sender, op)
    requires op.kind.Remove? && RemoveAll(s.table, op.addrs).Revert?
    ensures FirstUnmet(c, s, sender, now, op, RemoveAll(s.table, op.addrs).error)
  {
    var i := RemoveAllError(s.table, op.addrs);
  }

  /** A rejected signer change reports the first condition it does not meet. */
  lemma AdminErrorExact(c: Crypto, s: State, sender: Address, now: Timestamp, op: AdminOp)
    requires SignersInv(s) && ExecAdmin(c, s, sender, now, op).Revert?
    ensures FirstUnmet(c, s, sender, now, op, ExecAdmin(c, s, sender, now, op).error)
  {
    var error := ExecAdmin(c, s, sender, now, op).error;
    if GuardsPassed(s, sender, now, op) {
      var verdict := VerifySignatures(c, s.table.isSigner, s.quorum, sender, Digest(c, op, s.signerNonce),
                                      op.signatures);
      if verdict.Some? {
        SignaturesError(c, s, sender, now, op, error);
      } else {
        CoSignedIff(c, s, sender, Digest(c, op, s.signerNonce), op.signatures);
        if s.signerNonce != WORD_LIMIT - 1 {
          if op.kind.Add? { PushError(c, s, sender, now, op); } else { RemoveError(c, s, sender, now, op); }
        }
      }
    }
  }

  /** A rejected deposit reports the first condition it does not meet. */
  lemma DepositErrorExact(c: Crypto, s: State, now: Timestamp, token: Address, amount: Word, msgValue: Word,
                          ext: External)
    requires ExecDeposit(c, s, now, token, amount, msgValue, ext).Revert?
    ensures match ExecDeposit(c, s, now, token, amount, msgValue, ext).error
      case ZeroAmount => amount == 0
      case MsgValueMismatch => amount != 0 && token == ZERO && msgValue != amount
      case NonZeroMsgValueForERC20 => amount != 0 && token != ZERO && msgValue != 0
      case TokenCallFailed => amount != 0 && token != ZERO && msgValue == 0 && !ext.succeeds
      case _ => false
  {
  }

  /** So does a rejected start, */
  lemma StartErrorExact(c: Crypto, s: State, sender: Address, now: Timestamp, user: Address, token: Address,
                        amount: Word, nonce: Word)
    requires ExecStart(c, s, sender, now, user, token, amount, nonce).Revert?
    ensures match ExecStart(c, s, sender, now, user, token, amount, nonce).error
      case NotSigner => sender !in s.table.isSigner
      case InvalidUser => sender in s.table.isSigner && user == ZERO
      case ZeroAmount => sender in s.table.isSigner && user != ZERO && amount == 0
      case WithdrawalAlreadyExists =>
        sender in s.table.isSigner && user != ZERO && amount != 0
        && WithdrawalId(c, user, token, amount, nonce) in s.withdrawals
      case _ => false
  {
  }

  /** a rejected approval, up to the failed payout it led to, */
  lemma FinalizeErrorExact(c: Crypto, s: State, sender: Address, now: Timestamp, id: Word, ext: External)
    requires ExecFinalize(c, s, sender, now, id, ext).Revert?
    ensures var error := ExecFinalize(c, s, sender, now, id, ext).error;
      if sender !in s.table.isSigner then error == NotSigner
      else if id !in s.withdrawals then error == WithdrawalNotFound
      else
        var r := s.withdrawals[id];
        if r.finalized then error == WithdrawalAlreadyFinalized
        else if now > r.createdAt + 60 * 60 then error == WithdrawalExpired
        else if id in s.approvals && sender in s.approvals[id] then error == SignerAlreadyApproved
        else if r.amount > BalanceOf(s.balances, r.token) then error == InsufficientLiquidity
        else error == if r.token == ZERO then ETHTransferFailed else TokenCallFailed
  {
  }

  /** and a rejected rejection. */
  lemma RejectErrorExact(s: State, sender: Address, now: Timestamp, id: Word)
    requires ExecReject(s, sender, now, id).Revert?
    ensures match ExecReject(s, sender, now, id).error
      case NotSigner => sender !in s.table.isSigner
      case WithdrawalNotFound => sender in s.table.isSigner && id !in s.withdrawals
      case WithdrawalAlreadyFinalized =>
        sender in s.table.isSigner && id in s.withdrawals && s.withdrawals[id].finalized
      case WithdrawalNotExpired =>
        sender in s.table.isSigner && id in s.withdrawals && !s.withdrawals[id].finalized
        && now <= s.withdrawals[id].createdAt + 60 * 60
      case _ => false
  {
  }
}
