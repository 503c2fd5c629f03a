/** `QuorumCustody` as a function from storage and transaction to outcome, with the invariant every
    transaction keeps. The class in QuorumCustody.dfy is proved to compute this function. */
module QuorumSpec {
  import opened Evm
  import opened Encoding
  import opened SignerTable

  const OPERATION_EXPIRY: nat := 3600

  datatype Request = Request(
    user: Address, token: Address, amount: Word, finalized: bool, createdAt: Uint64, requiredQuorum: Uint64)

  /** Contract storage plus the balances the contract holds. A withdrawal id absent from the map reads as
      a request with createdAt zero; absent approvals read as none. */
  datatype State = State(
    table: Table, quorum: Uint64, signerNonce: Word,
    withdrawals: map<Word, Request>, approvals: map<Word, set<Address>>, balances: map<Address, nat>)

  datatype AdminTx = AdminTx(sender: Address, op: AdminOp)

  /** What happens inside an external call: the callee calls back into the two signer-management functions
      (all others are guarded against re-entry), and in the end succeeds or fails. */
  datatype External = External(callback: seq<AdminTx>, succeeds: bool)

  datatype Call =
    | Admin(op: AdminOp)
    | Deposit(token: Address, amount: Word, msgValue: Word, transfer: External)
    | StartWithdraw(user: Address, token': Address, amount': Word, nonce: Word)
    | FinalizeWithdraw(id: Word, payout: External)
    | RejectWithdraw(id: Word)

  datatype Tx = Tx(sender: Address, now: Timestamp, call: Call)

  function Approvers(s: State, id: Word): set<Address> {
    if id in s.approvals then s.approvals[id] else {}
  }

  /** The approvals that count: those of addresses that are signers now. */
  function ValidApprovers(s: State, id: Word): set<Address> {
    s.table.isSigner * Approvers(s, id)
  }

  // ---- construction ----

  function Construct(initialSigners: seq<Address>, quorum: Uint64): Outcome<State> {
    if initialSigners == [] then Revert(EmptySignersArray)
    else if quorum == 0 || quorum > |initialSigners| then Revert(InvalidQuorum)
    else
      match PushAll(Table([], {}), initialSigners)
      case Revert(e) => Revert(e)
      case Ok(t) => Ok(State(t, quorum, 0, map[], map[], map[]))
  }

  // ---- signer management ----

  function QuorumAllowed(s: State, op: AdminOp): bool {
    match op.kind
    case Add => op.newQuorum != 0 && op.newQuorum >= s.quorum && op.newQuorum <= |s.table.signers| + |op.addrs|
    case Remove =>
      var remaining := |s.table.signers| - |op.addrs|;
      var floor := if s.quorum < remaining then s.quorum else remaining;
      op.newQuorum != 0 && floor <= op.newQuorum && op.newQuorum <= remaining
  }

  function ExecAdmin(c: Crypto, s: State, sender: Address, now: Timestamp, op: AdminOp): Outcome<State> {
    if sender !in s.table.isSigner then Revert(NotSigner)
    else if now > op.deadline then Revert(DeadlineExpired)
    else if op.addrs == [] then Revert(EmptySignersArray)
    else if op.kind.Remove? && |op.addrs| >= |s.table.signers| then Revert(CannotRemoveLastSigner)
    else if !QuorumAllowed(s, op) then Revert(InvalidQuorum)
    else
      match VerifySignatures(c, s.table.isSigner, s.quorum, sender, Digest(c, op, s.signerNonce), op.signatures)
      case Some(e) => Revert(e)
      case None =>
        if s.signerNonce == WORD_LIMIT - 1 then Revert(ArithmeticOverflow)
        else
          match if op.kind.Add? then PushAll(s.table, op.addrs) else RemoveAll(s.table, op.addrs)
          case Revert(e) => Revert(e)
          case Ok(t) => Ok(s.(table := t, signerNonce := s.signerNonce + 1, quorum := op.newQuorum))
  }

  /** A callback performs its calls one after another; a call that reverts changes nothing. */
  function Callback(c: Crypto, s: State, now: Timestamp, calls: seq<AdminTx>): State
    decreases |calls|
  {
    if calls == [] then s
    else
      var s' := match ExecAdmin(c, s, calls[0].sender, now, calls[0].op) case Ok(x) => x case Revert(_) => s;
      Callback(c, s', now, calls[1..])
  }

  // ---- money in ----

  function Credited(s: State, token: Address, amount: Word): State {
    s.(balances := s.balances[token := BalanceOf(s.balances, token) + amount])
  }

  /** The value sent along arrives with the call; a revert returns it. */
  function Arrived(s: State, msgValue: Word): State {
    if msgValue == 0 then s else Credited(s, ZERO, msgValue)
  }

  function ExecDeposit(c: Crypto, s: State, now: Timestamp, token: Address, amount: Word, msgValue: Word, ext: External)
    : Outcome<State>
  {
    if amount == 0 then Revert(ZeroAmount)
    else if token == ZERO then
      if msgValue != amount then Revert(MsgValueMismatch) else Ok(Arrived(s, msgValue))
    else if msgValue != 0 then Revert(NonZeroMsgValueForERC20)
    else if !ext.succeeds then Revert(TokenCallFailed)
    else Ok(Callback(c, Credited(Arrived(s, msgValue), token, amount), now, ext.callback))
  }

  // ---- withdrawals ----

  function ExecStart(c: Crypto, s: State, sender: Address, now: Timestamp, user: Address, token: Address, amount: Word,
                     nonce: Word): Outcome<State> {
    var id := WithdrawalId(c, user, token, amount, nonce);
    if sender !in s.table.isSigner then Revert(NotSigner)
    else if user == ZERO then Revert(InvalidUser)
    else if amount == 0 then Revert(ZeroAmount)
    else if id in s.withdrawals then Revert(WithdrawalAlreadyExists)
    else Ok(s.(withdrawals := s.withdrawals[id := Request(user, token, amount, false, now, s.quorum)]))
  }

  /** A transfer to the contract itself: a native one fails (nothing receives it), a token one moves nothing. */
  function AfterPayout(c: Crypto, balances: map<Address, nat>, r: Request): map<Address, nat>
    requires BalanceOf(balances, r.token) >= r.amount
  {
    if r.user == c.self then balances
    else balances[r.token := BalanceOf(balances, r.token) - r.amount]
  }

  /** Marked finalized and paid out: the state in which the recipient gets control. */
  function PaidOut(c: Crypto, s: State, id: Word): State
    requires id in s.withdrawals && BalanceOf(s.balances, s.withdrawals[id].token) >= s.withdrawals[id].amount
  {
    s.(withdrawals := s.withdrawals[id := s.withdrawals[id].(finalized := true)],
       balances := AfterPayout(c, s.balances, s.withdrawals[id]))
  }

  function Cleared(r: Request): Request {
    r.(finalized := true, user := ZERO, token := ZERO, amount := 0)
  }

  function Execute(c: Crypto, s: State, now: Timestamp, id: Word, ext: External): Outcome<State>
    requires id in s.withdrawals
  {
    var r := s.withdrawals[id];
    if BalanceOf(s.balances, r.token) < r.amount then Revert(InsufficientLiquidity)
    else if r.token == ZERO && (!ext.succeeds || r.user == c.self) then Revert(ETHTransferFailed)
    else if r.token != ZERO && !ext.succeeds then Revert(TokenCallFailed)
    else
      var after := Callback(c, PaidOut(c, s, id), now, ext.callback);
      Ok(after.(withdrawals := after.withdrawals[id := Cleared(r)]))
  }

  function Approved(s: State, sender: Address, id: Word): State {
    s.(approvals := s.approvals[id := Approvers(s, id) + {sender}])
  }

  function ExecFinalize(c: Crypto, s: State, sender: Address, now: Timestamp, id: Word, ext: External): Outcome<State> {
    if sender !in s.table.isSigner then Revert(NotSigner)
    else if id !in s.withdrawals then Revert(WithdrawalNotFound)
    else if s.withdrawals[id].finalized then Revert(WithdrawalAlreadyFinalized)
    else if now > s.withdrawals[id].createdAt + OPERATION_EXPIRY then Revert(WithdrawalExpired)
    else if sender in Approvers(s, id) then Revert(SignerAlreadyApproved)
    else
      var approved := Approved(s, sender, id);
      if |ValidApprovers(approved, id)| < s.withdrawals[id].requiredQuorum then Ok(approved)
      else Execute(c, approved, now, id, ext)
  }

  function ExecReject(s: State, sender: Address, now: Timestamp, id: Word): Outcome<State> {
    if sender !in s.table.isSigner then Revert(NotSigner)
    else if id !in s.withdrawals then Revert(WithdrawalNotFound)
    else if s.withdrawals[id].finalized then Revert(WithdrawalAlreadyFinalized)
    else if now <= s.withdrawals[id].createdAt + OPERATION_EXPIRY then Revert(WithdrawalNotExpired)
    else Ok(s.(withdrawals := s.withdrawals[id := s.withdrawals[id].(finalized := true)]))
  }

  function Exec(c: Crypto, s: State, tx: Tx): Outcome<State> {
    match tx.call
    case Admin(op) => ExecAdmin(c, s, tx.sender, tx.now, op)
    case Deposit(token, amount, msgValue, ext) => ExecDeposit(c, s, tx.now, token, amount, msgValue, ext)
    case StartWithdraw(user, token, amount, nonce) => ExecStart(c, s, tx.sender, tx.now, user, token, amount, nonce)
    case FinalizeWithdraw(id, ext) => ExecFinalize(c, s, tx.sender, tx.now, id, ext)
    case RejectWithdraw(id) => ExecReject(s, tx.sender, tx.now, id)
  }

  function Next(c: Crypto, s: State, tx: Tx): State {
    match Exec(c, s, tx) case Ok(s') => s' case Revert(_) => s
  }

  // ---- the invariant ----

  ghost predicate SignersInv(s: State) {
    Agrees(s.table) && 1 <= s.quorum <= |s.table.signers|
  }

  ghost predicate RequestInv(r: Request) {
    r.createdAt != 0 && r.requiredQuorum >= 1 && (!r.finalized ==> r.user != ZERO && r.amount != 0)
  }

  ghost predicate Inv(s: State) {
    && SignersInv(s)
    && (forall id :: id in s.withdrawals ==> RequestInv(s.withdrawals[id]))
    && s.approvals.Keys <= s.withdrawals.Keys
  }

  lemma ConstructInv(initialSigners: seq<Address>, quorum: Uint64)
    ensures Construct(initialSigners, quorum).Ok? <==>
            1 <= quorum <= |initialSigners| && NoDuplicates(initialSigners) && ZERO !in initialSigners
    ensures Construct(initialSigners, quorum).Ok? ==>
            Inv(Construct(initialSigners, quorum).value) &&
            Construct(initialSigners, quorum).value
              == State(Table(initialSigners, Elems(initialSigners)), quorum, 0, map[], map[], map[])
  {
    PushAllExact(Table([], {}), initialSigners);
    assert [] + initialSigners == initialSigners && {} + Elems(initialSigners) == Elems(initialSigners);
  }

  /** Signer management touches the signer table, the quorum and the nonce, and nothing else. */
  ghost predicate OnlySigners(s: State, s': State) {
    s'.withdrawals == s.withdrawals && s'.approvals == s.approvals && s'.balances == s.balances
  }

  /** What an accepted addition or removal does: the exact new signer set, one nonce step, and a quorum
      that addition never lowers and removal lowers at most to the number of remaining signers. */
  lemma AdminExact(c: Crypto, s: State, sender: Address, now: Timestamp, op: AdminOp)
    requires SignersInv(s) && ExecAdmin(c, s, sender, now, op).Ok?
    ensures var s' := ExecAdmin(c, s, sender, now, op).value;
      && SignersInv(s') && OnlySigners(s, s') && s'.signerNonce == s.signerNonce + 1
      && NoDuplicates(op.addrs)
      && (op.kind.Add? ==>
            s'.table.isSigner == s.table.isSigner + Elems(op.addrs) && s.table.isSigner !! Elems(op.addrs)
            && s'.table.signers == s.table.signers + op.addrs && s.quorum <= s'.quorum)
      && (op.kind.Remove? ==>
            s'.table.isSigner == s.table.isSigner - Elems(op.addrs) && Elems(op.addrs) <= s.table.isSigner
            && |s'.table.signers| == |s.table.signers| - |op.addrs|
            && (s.quorum <= s'.quorum || |s'.table.signers| <= s'.quorum))
  {
    if op.kind.Add? {
      PushAllExact(s.table, op.addrs);
    } else {
      RemoveAllExact(s.table, op.addrs);
    }
  }

  /** Every accepted change of the signer set was asked for by a signer and co-signed, over the digest for
      the nonce in force, so that at least `quorum` distinct current signers stand behind it. */
  lemma AdminAuthorised(c: Crypto, s: State, sender: Address, now: Timestamp, op: AdminOp)
    returns (authors: seq<Address>)
    requires SignersInv(s) && ExecAdmin(c, s, sender, now, op).Ok?
    ensures SignedBy(c, Digest(c, op, s.signerNonce), op.signatures, authors)
    ensures Elems(authors) + {sender} <= s.table.isSigner
    ensures |Elems(authors) + {sender}| >= s.quorum
    ensures now <= op.deadline
  {
    authors := VerifySound(c, s.table, s.quorum, sender, Digest(c, op, s.signerNonce), op.signatures);
  }

  lemma {:induction false} CallbackExact(c: Crypto, s: State, now: Timestamp, calls: seq<AdminTx>)
    requires SignersInv(s)
    ensures SignersInv(Callback(c, s, now, calls)) && OnlySigners(s, Callback(c, s, now, calls))
    decreases |calls|
  {
    if calls != [] {
      var next := ExecAdmin(c, s, calls[0].sender, now, calls[0].op);
      if next.Ok? {
        AdminExact(c, s, calls[0].sender, now, calls[0].op);
        CallbackExact(c, next.value, now, calls[1..]);
      } else {
        CallbackExact(c, s, now, calls[1..]);
      }
    }
  }

  lemma ExecuteInv(c: Crypto, s: State, now: Timestamp, id: Word, ext: External)
    requires Inv(s) && id in s.withdrawals && !s.withdrawals[id].finalized
    requires Execute(c, s, now, id, ext).Ok?
    ensures Inv(Execute(c, s, now, id, ext).value)
  {
    CallbackExact(c, PaidOut(c, s, id), now, ext.callback);
  }

  /** An accepted deposit credits the amount and changes no withdrawal or approval. */
  lemma DepositExact(c: Crypto, s: State, now: Timestamp, token: Address, amount: Word, msgValue: Word, ext: External)
    requires SignersInv(s) && ExecDeposit(c, s, now, token, amount, msgValue, ext).Ok?
    ensures var s' := ExecDeposit(c, s, now, token, amount, msgValue, ext).value;
      SignersInv(s') && OnlySigners(Credited(s, token, amount), s')
  {
    CallbackExact(c, Credited(s, token, amount), now, ext.callback);
  }

  /** An accepted `finalizeWithdraw` adds one approval; if the current signers among the approvers then
      reach the required quorum, and only then, it pays and clears the request. */
  lemma FinalizeExact(c: Crypto, s: State, sender: Address, now: Timestamp, id: Word, ext: External)
    requires Inv(s) && ExecFinalize(c, s, sender, now, id, ext).Ok?
    ensures var s' := ExecFinalize(c, s, sender, now, id, ext).value;
      && id in s.withdrawals && !s.withdrawals[id].finalized && now <= s.withdrawals[id].createdAt + OPERATION_EXPIRY
      && sender in s.table.isSigner && sender !in Approvers(s, id)
      && SignersInv(s')
      && s'.approvals == s.approvals[id := Approvers(s, id) + {sender}]
      && var r := s.withdrawals[id];
      if |s.table.isSigner * (Approvers(s, id) + {sender})| < r.requiredQuorum then s' == Approved(s, sender, id)
      else
        && BalanceOf(s.balances, r.token) >= r.amount
        && s'.withdrawals == s.withdrawals[id := Cleared(r)]
        && s'.balances == AfterPayout(c, s.balances, r)
        && ext.succeeds && (r.user == c.self ==> r.token != ZERO)
  {
    var approved := Approved(s, sender, id);
    assert ValidApprovers(approved, id) == s.table.isSigner * (Approvers(s, id) + {sender});
    if |ValidApprovers(approved, id)| >= s.withdrawals[id].requiredQuorum {
      CallbackExact(c, PaidOut(c, approved, id), now, ext.callback);
    }
  }

  // ---- exactly when a transaction is accepted ----

  /** The signatures are by enough other current signers over this digest, in strictly ascending order. */
  ghost predicate CoSignedBy(c: Crypto, s: State, sender: Address, digest: Word, signatures: seq<seq<byte>>,
                             authors: seq<Address>) {
    && |authors| == |signatures| && |authors| + 1 >= s.quorum
    && (forall i :: 0 <= i < |authors| ==> c.recover(digest, signatures[i]) == Some(authors[i]))
    && (forall i :: 0 <= i < |authors| ==> authors[i] in s.table.isSigner && authors[i] != sender)
    && (forall i, k :: 0 <= i < k < |authors| ==> authors[i] < authors[k])
  }

  lemma CoSignedIff(c: Crypto, s: State, sender: Address, digest: Word, signatures: seq<seq<byte>>)
    requires SignersInv(s)
    ensures VerifySignatures(c, s.table.isSigner, s.quorum, sender, digest, signatures).None? <==>
      exists authors :: CoSignedBy(c, s, sender, digest, signatures, authors)
  {
    if VerifySignatures(c, s.table.isSigner, s.quorum, sender, digest, signatures).None? {
      var authors := SignatureLoopRecovers(c, s.table.isSigner, sender, digest, signatures, ZERO);
      SignatureLoopExact(c, s.table.isSigner, sender, digest, signatures, ZERO, authors);
      forall i | 0 <= i < |authors| ensures authors[i] in s.table.isSigner {
        assert authors[i] in Elems(authors);
      }
      assert CoSignedBy(c, s, sender, digest, signatures, authors);
    }
    if authors :| CoSignedBy(c, s, sender, digest, signatures, authors) {
      assert authors != [] ==> ZERO < authors[0];
      SignatureLoopExact(c, s.table.isSigner, sender, digest, signatures, ZERO, authors);
    }
  }

  /** `addSigners` is accepted exactly if its caller is a signer, the deadline has not passed, the quorum asked for is
      neither lower than the present one nor higher than the new number of signers, enough others have signed, and the
      batch is not empty, without repetition or the zero address, and disjoint from the signers. */
  lemma AddAcceptedIff(c: Crypto, s: State, sender: Address, now: Timestamp, op: AdminOp)
    requires SignersInv(s) && op.kind.Add?
    ensures ExecAdmin(c, s, sender, now, op).Ok? <==>
      && sender in s.table.isSigner && now <= op.deadline && op.addrs != []
      && s.quorum <= op.newQuorum <= |s.table.signers| + |op.addrs|
      && (exists authors :: CoSignedBy(c, s, sender, Digest(c, op, s.signerNonce), op.signatures, authors))
      && s.signerNonce < WORD_LIMIT - 1
      && (forall i, k :: 0 <= i < k < |op.addrs| ==> op.addrs[i] != op.addrs[k])
      && (forall a :: a in op.addrs ==> a != ZERO && a !in s.table.isSigner)
    ensures ExecAdmin(c, s, sender, now, op).Ok? ==> ExecAdmin(c, s, sender, now, op).value.quorum == op.newQuorum
  {
    CoSignedIff(c, s, sender, Digest(c, op, s.signerNonce), op.signatures);
    PushAllExact(s.table, op.addrs);
    assert s.table.isSigner !! Elems(op.addrs) <==> forall a :: a in op.addrs ==> a !in s.table.isSigner by {
      assert forall a :: a in op.addrs <==> a in Elems(op.addrs);
    }
  }

  /** `removeSigners` likewise, for a batch of different current signers that leaves somebody, and a quorum no higher
      than the number who remain and no lower than the smaller of that and the present one. */
  lemma RemoveAcceptedIff(c: Crypto, s: State, sender: Address, now: Timestamp, op: AdminOp)
    requires SignersInv(s) && op.kind.Remove?
    ensures ExecAdmin(c, s, sender, now, op).Ok? <==>
      && sender in s.table.isSigner && now <= op.deadline && 0 < |op.addrs| < |s.table.signers|
      && 0 < op.newQuorum <= |s.table.signers| - |op.addrs|
      && (op.newQuorum >= s.quorum || op.newQuorum >= |s.table.signers| - |op.addrs|)
      && (exists authors :: CoSignedBy(c, s, sender, Digest(c, op, s.signerNonce), op.signatures, authors))
      && s.signerNonce < WORD_LIMIT - 1
      && (forall i, k :: 0 <= i < k < |op.addrs| ==> op.addrs[i] != op.addrs[k])
      && (forall a :: a in op.addrs ==> a in s.table.isSigner)
    ensures ExecAdmin(c, s, sender, now, op).Ok? ==> ExecAdmin(c, s, sender, now, op).value.quorum == op.newQuorum
  {
    CoSignedIff(c, s, sender, Digest(c, op, s.signerNonce), op.signatures);
    RemoveAllExact(s.table, op.addrs);
    assert Elems(op.addrs) <= s.table.isSigner <==> forall a :: a in op.addrs ==> a in s.table.isSigner;
  }

  /** A deposit is accepted exactly if the amount is not zero and, for the native currency, the value sent along is the
      amount, for a token, none is sent along and the token lets itself be transferred. */
  lemma DepositAcceptedIff(c: Crypto, s: State, sender: Address, now: Timestamp, token: Address, amount: Word,
                           msgValue: Word, ext: External)
    ensures Exec(c, s, Tx(sender, now, Deposit(token, amount, msgValue, ext))).Ok? <==>
      amount != 0 && if token == ZERO then msgValue == amount else msgValue == 0 && ext.succeeds
  {
  }

  /** A withdrawal is started exactly if the caller is a signer, the recipient and the amount are not zero, and its id
      is not known; then the record holds what was asked for, the time and the quorum of the moment. */
  lemma StartAcceptedIff(c: Crypto, s: State, sender: Address, now: Timestamp, user: Address, token: Address,
                         amount: Word, nonce: Word)
    ensures var id, outcome := WithdrawalId(c, user, token, amount, nonce),
                               Exec(c, s, Tx(sender, now, StartWithdraw(user, token, amount, nonce)));
      && (outcome.Ok? <==> sender in s.table.isSigner && user != ZERO && amount != 0 && id !in s.withdrawals)
      && (outcome.Ok? ==>
            outcome.value == s.(withdrawals := s.withdrawals[id := Request(user, token, amount, false, now, s.quorum)]))
  {
  }

  /** An approval is accepted exactly if the caller is a signer who has not approved yet, the request is known, not
      finished and not older than an hour, and either the current signers among the approvers stay below the required
      quorum, or the balance covers the amount, the payout succeeds, and it is not a native one to the contract. */
  lemma FinalizeAcceptedIff(c: Crypto, s: State, sender: Address, now: Timestamp, id: Word, ext: External)
    ensures Exec(c, s, Tx(sender, now, FinalizeWithdraw(id, ext))).Ok? <==>
      && sender in s.table.isSigner
      && id in s.withdrawals
      && var r := s.withdrawals[id];
         var earlier := if id in s.approvals then s.approvals[id] else {};
         && !r.finalized && now <= r.createdAt + 60 * 60 && sender !in earlier
         && (|s.table.isSigner * (earlier + {sender})| < r.requiredQuorum
             || (r.amount <= (if r.token in s.balances then s.balances[r.token] else 0)
                 && ext.succeeds && !(r.token == ZERO && r.user == c.self)))
  {
    if sender in s.table.isSigner && id in s.withdrawals {
      var earlier := if id in s.approvals then s.approvals[id] else {};
      assert ValidApprovers(Approved(s, sender, id), id) == s.table.isSigner * (earlier + {sender});
    }
  }

  /** A rejection is accepted exactly if the caller is a signer and the request is known, not finished and older than an
      hour; it marks the request as finished and touches nothing else. */
  lemma RejectAcceptedIff(c: Crypto, s: State, sender: Address, now: Timestamp, id: Word)
    ensures var outcome := Exec(c, s, Tx(sender, now, RejectWithdraw(id)));
      && (outcome.Ok? <==>
            sender in s.table.isSigner && id in s.withdrawals && !s.withdrawals[id].finalized
            && now > s.withdrawals[id].createdAt + 60 * 60)
      && (outcome.Ok? ==>
            outcome.value == s.(withdrawals := s.withdrawals[id := s.withdrawals[id].(finalized := true)]))
  {
  }

  /** A paid request is finished, without recipient, token and amount, and keeps its time and required quorum. */
  lemma PaidRecord(c: Crypto, s: State, sender: Address, now: Timestamp, id: Word, ext: External)
    requires Inv(s) && ExecFinalize(c, s, sender, now, id, ext).Ok?
    requires |s.table.isSigner * (Approvers(s, id) + {sender})| >= s.withdrawals[id].requiredQuorum
    ensures var r := s.withdrawals[id];
      ExecFinalize(c, s, sender, now, id, ext).value.withdrawals
        == s.withdrawals[id := Request(ZERO, ZERO, 0, true, r.createdAt, r.requiredQuorum)]
  {
    FinalizeExact(c, s, sender, now, id, ext);
  }

  /** Every transaction keeps the invariant, also when the payout or a token calls back. */
  lemma ExecInv(c: Crypto, s: State, tx: Tx)
    requires Inv(s) && Exec(c, s, tx).Ok?
    ensures Inv(Exec(c, s, tx).value)
  {
    match tx.call
    case Admin(op) =>
      AdminExact(c, s, tx.sender, tx.now, op);
    case Deposit(token, amount, msgValue, ext) =>
      DepositExact(c, s, tx.now, token, amount, msgValue, ext);
    case StartWithdraw(_, _, _, _) =>
    case FinalizeWithdraw(id, ext) =>
      FinalizeExact(c, s, tx.sender, tx.now, id, ext);
    case RejectWithdraw(_) =>
  }
}
