/** `SimpleCustody`, the contract the daemon serves, as a function from storage and call to outcome. */
module SimpleSpec {
  import opened Evm
  import opened Encoding

  datatype SimpleRequest = SimpleRequest(user: Address, token: Address, amount: Word, exists_: bool, finalized: bool)

  /** The events, as emitted, and the transfers out, in order. */
  datatype Started = Started(id: Word, user: Address, token: Address, amount: Word, nonce: Word)
  datatype Deposited = Deposited(user: Address, token: Address, amount: nat)
  datatype Closed = Closed(id: Word, success: bool)
  datatype Payout = Payout(id: Word, user: Address, token: Address, amount: Word)

  datatype Chain = Chain(
    requests: map<Word, SimpleRequest>, balances: map<Address, nat>, neodax: set<Address>, nitewatch: set<Address>,
    started: seq<Started>, deposited: seq<Deposited>, closed: seq<Closed>, payouts: seq<Payout>)

  /** A token deposit: whether the token call succeeds, and the contract's balance it reports afterwards. */
  datatype Delivery = Delivery(succeeds: bool, balanceAfter: nat)

  datatype ChainCall =
    | Deposit(token: Address, amount: Word, msgValue: Word, delivery: Delivery)
    | StartWithdraw(user: Address, token': Address, amount': Word, nonce: Word)
    | FinalizeWithdraw(id: Word, transferSucceeds: bool)
    | RejectWithdraw(id: Word)
    | ChangeRoles(neodax: set<Address>, nitewatch: set<Address>)

  function Genesis(neodax: set<Address>, nitewatch: set<Address>): Chain {
    Chain(map[], map[], neodax, nitewatch, [], [], [], [])
  }

  function Exists(s: Chain, id: Word): bool {
    id in s.requests && s.requests[id].exists_
  }

  function ExecDeposit(s: Chain, sender: Address, token: Address, amount: Word, msgValue: Word,
                       d: Delivery): Outcome<Chain> {
    var before := BalanceOf(s.balances, token);
    if amount == 0 then Revert(ZeroAmount)
    else if token == ZERO then
      if msgValue != amount then Revert(MsgValueMismatch)
      else Ok(s.(balances := s.balances[token := before + msgValue],
                 deposited := s.deposited + [Deposited(sender, token, amount)]))
    else if msgValue != 0 then Revert(NonZeroMsgValueForERC20)
    else if !d.succeeds then Revert(TokenCallFailed)
    else if d.balanceAfter < before then Revert(BalanceUnderflow)
    else Ok(s.(balances := s.balances[token := d.balanceAfter],
               deposited := s.deposited + [Deposited(sender, token, d.balanceAfter - before)]))
  }

  function ExecStart(c: Crypto, s: Chain, sender: Address, user: Address, token: Address, amount: Word,
                     nonce: Word): Outcome<Chain> {
    var id := WithdrawalId(c, user, token, amount, nonce);
    if sender !in s.neodax then Revert(MissingRole)
    else if amount == 0 then Revert(ZeroAmount)
    else if Exists(s, id) then Revert(WithdrawalAlreadyExists)
    else Ok(s.(requests := s.requests[id := SimpleRequest(user, token, amount, true, false)],
               started := s.started + [Started(id, user, token, amount, nonce)]))
  }

  function ExecFinalize(c: Crypto, s: Chain, sender: Address, id: Word, transferSucceeds: bool): Outcome<Chain> {
    if sender !in s.nitewatch then Revert(MissingRole)
    else if !Exists(s, id) then Revert(WithdrawalNotFound)
    else if s.requests[id].finalized then Revert(WithdrawalAlreadyFinalized)
    else
      var r := s.requests[id];
      var before := BalanceOf(s.balances, r.token);
      if before < r.amount then Revert(InsufficientLiquidity)
      else if r.token == ZERO && (!transferSucceeds || r.user == c.self) then Revert(ETHTransferFailed)
      else if r.token != ZERO && !transferSucceeds then Revert(TokenCallFailed)
      else Ok(s.(requests := s.requests[id := SimpleRequest(ZERO, ZERO, 0, true, true)],
                 balances := if r.user == c.self then s.balances else s.balances[r.token := before - r.amount],
                 closed := s.closed + [Closed(id, true)],
                 payouts := s.payouts + [Payout(id, r.user, r.token, r.amount)]))
  }

  function ExecReject(s: Chain, sender: Address, id: Word): Outcome<Chain> {
    if sender !in s.nitewatch then Revert(MissingRole)
    else if !Exists(s, id) then Revert(WithdrawalNotFound)
    else if s.requests[id].finalized then Revert(WithdrawalAlreadyFinalized)
    else Ok(s.(requests := s.requests[id := s.requests[id].(finalized := true)],
               closed := s.closed + [Closed(id, false)]))
  }

  function Exec(c: Crypto, s: Chain, sender: Address, call: ChainCall): Outcome<Chain> {
    match call
    case Deposit(token, amount, value, d) => ExecDeposit(s, sender, token, amount, value, d)
    case StartWithdraw(user, token, amount, nonce) => ExecStart(c, s, sender, user, token, amount, nonce)
    case FinalizeWithdraw(id, ok) => ExecFinalize(c, s, sender, id, ok)
    case RejectWithdraw(id) => ExecReject(s, sender, id)
    case ChangeRoles(neodax, nitewatch) => Ok(s.(neodax := neodax, nitewatch := nitewatch))
  }

  function Next(c: Crypto, s: Chain, sender: Address, call: ChainCall): Chain {
    match Exec(c, s, sender, call) case Ok(s') => s' case Revert(_) => s
  }

  // ---- money ----

  function TotalDeposited(ds: seq<Deposited>, token: Address): nat {
    if ds == [] then 0
    else TotalDeposited(ds[..|ds| - 1], token) + if ds[|ds| - 1].token == token then ds[|ds| - 1].amount else 0
  }

  /** What the payouts in that token moved out of the contract: a transfer to the contract itself moves nothing. */
  function TotalMoved(c: Crypto, ps: seq<Payout>, token: Address): nat {
    if ps == [] then 0
    else
      var p := ps[|ps| - 1];
      TotalMoved(c, ps[..|ps| - 1], token) + if p.token == token && p.user != c.self then p.amount else 0
  }

  ghost predicate Conserved(c: Crypto, s: Chain) {
    forall token: Address :: BalanceOf(s.balances, token)
      == TotalDeposited(s.deposited, token) - TotalMoved(c, s.payouts, token)
  }

  // ---- the invariant ----

  /** Started ids are pairwise different, and so are paid ids. */
  ghost predicate UniqueStarts(s: Chain) {
    forall i, j :: 0 <= i < j < |s.started| ==> s.started[i].id != s.started[j].id
  }

  ghost predicate UniquePayouts(s: Chain) {
    forall i, j :: 0 <= i < j < |s.payouts| ==> s.payouts[i].id != s.payouts[j].id
  }

  ghost predicate AsStarted(r: SimpleRequest, e: Started) {
    r.user == e.user && r.token == e.token && r.amount == e.amount
  }

  /** Requests and events agree: what was started exists, what is pending is as started, what was paid is
      finished and was paid as started. */
  ghost predicate RecordsAgree(s: Chain) {
    && (forall e :: e in s.started ==>
          Exists(s, e.id) && (s.requests[e.id].finalized || AsStarted(s.requests[e.id], e)))
    && (forall id :: id in s.requests && s.requests[id].exists_ ==> exists e :: e in s.started && e.id == id)
    && (forall p :: p in s.payouts ==> Exists(s, p.id) && s.requests[p.id].finalized)
    && (forall p, e :: p in s.payouts && e in s.started && p.id == e.id ==>
          p.user == e.user && p.token == e.token && p.amount == e.amount)
  }

  /** A payout is announced by a WithdrawFinalized event with success, and no such event lacks a payout. */
  ghost predicate PaidIsClosed(s: Chain) {
    forall id :: Closed(id, true) in s.closed <==> exists p :: p in s.payouts && p.id == id
  }

  /** An id is closed with success or without, not both, and only when its request is finished. */
  ghost predicate ClosedOneWay(s: Chain) {
    forall id, ok :: Closed(id, ok) in s.closed ==>
      Exists(s, id) && s.requests[id].finalized && Closed(id, !ok) !in s.closed
  }

  /** A finished request has been closed one way or the other. */
  ghost predicate FinishedIsClosed(s: Chain) {
    forall id :: Exists(s, id) && s.requests[id].finalized ==>
      Closed(id, true) in s.closed || Closed(id, false) in s.closed
  }

  /** What was paid, and only that, has its stored amount cleared. */
  ghost predicate ClearedIsPaid(s: Chain) {
    forall id :: Exists(s, id) ==> (s.requests[id].amount == 0 <==> Closed(id, true) in s.closed)
  }

  ghost predicate ChainInv(c: Crypto, s: Chain) {
    && UniqueStarts(s) && UniquePayouts(s) && RecordsAgree(s) && PaidIsClosed(s)
    && ClosedOneWay(s) && FinishedIsClosed(s) && ClearedIsPaid(s) && Conserved(c, s)
  }

  lemma GenesisInv(c: Crypto, neodax: set<Address>, nitewatch: set<Address>)
    ensures ChainInv(c, Genesis(neodax, nitewatch))
  {
  }

  lemma DepositInv(c: Crypto, s: Chain, sender: Address, token: Address, amount: Word, value: Word, d: Delivery)
    requires ChainInv(c, s) && ExecDeposit(s, sender, token, amount, value, d).Ok?
    ensures ChainInv(c, ExecDeposit(s, sender, token, amount, value, d).value)
  {
    var s' := ExecDeposit(s, sender, token, amount, value, d).value;
    assert s'.deposited[..|s.deposited|] == s.deposited;
  }

  lemma StartInv(c: Crypto, s: Chain, sender: Address, user: Address, token: Address, amount: Word, nonce: Word)
    requires ChainInv(c, s) && ExecStart(c, s, sender, user, token, amount, nonce).Ok?
    ensures ChainInv(c, ExecStart(c, s, sender, user, token, amount, nonce).value)
  {
    var s' := ExecStart(c, s, sender, user, token, amount, nonce).value;
    var e := s'.started[|s.started|];
    forall id | id in s'.requests && s'.requests[id].exists_ ensures exists e :: e in s'.started && e.id == id {
      if id == e.id {
        assert e in s'.started;
      } else {
        var f :| f in s.started && f.id == id;
        assert f in s'.started;
      }
    }
  }

  lemma PayoutConserves(c: Crypto, s: Chain, sender: Address, id: Word, ok: bool)
    requires ChainInv(c, s) && ExecFinalize(c, s, sender, id, ok).Ok?
    ensures Conserved(c, ExecFinalize(c, s, sender, id, ok).value)
  {
    var s' := ExecFinalize(c, s, sender, id, ok).value;
    assert s'.payouts[..|s.payouts|] == s.payouts;
  }

  lemma FinalizeInv(c: Crypto, s: Chain, sender: Address, id: Word, ok: bool)
    requires ChainInv(c, s) && ExecFinalize(c, s, sender, id, ok).Ok?
    ensures ChainInv(c, ExecFinalize(c, s, sender, id, ok).value)
  {
    var s' := ExecFinalize(c, s, sender, id, ok).value;
    PayoutConserves(c, s, sender, id, ok);
    FinalizeRecords(s, s', id, s'.payouts[|s.payouts|]);
    FinalizeCloses(s, s', id, s'.payouts[|s.payouts|]);
  }

  /** The part of an accepted finalization that the records are about. */
  ghost predicate FinalizedStep(s: Chain, s': Chain, id: Word, p: Payout) {
    && Exists(s, id) && !s.requests[id].finalized && s'.started == s.started
    && p == Payout(id, s.requests[id].user, s.requests[id].token, s.requests[id].amount)
    && s'.requests == s.requests[id := SimpleRequest(ZERO, ZERO, 0, true, true)]
    && s'.payouts == s.payouts + [p] && s'.closed == s.closed + [Closed(id, true)]
  }

  lemma FinalizeRecords(s: Chain, s': Chain, id: Word, p: Payout)
    requires UniquePayouts(s) && UniqueStarts(s) && RecordsAgree(s) && FinalizedStep(s, s', id, p)
    ensures UniquePayouts(s') && RecordsAgree(s')
  {
    assert forall q :: q in s'.payouts <==> q in s.payouts || q == p;
  }

  lemma FinalizeCloses(s: Chain, s': Chain, id: Word, p: Payout)
    requires RecordsAgree(s) && PaidIsClosed(s) && ClosedOneWay(s) && FinishedIsClosed(s) && ClearedIsPaid(s)
    requires FinalizedStep(s, s', id, p)
    ensures PaidIsClosed(s') && ClosedOneWay(s') && FinishedIsClosed(s') && ClearedIsPaid(s')
  {
    assert forall q :: q in s'.payouts <==> q in s.payouts || q == p;
    assert forall e :: e in s'.closed <==> e in s.closed || e == Closed(id, true);
  }

  lemma RejectInv(c: Crypto, s: Chain, sender: Address, id: Word)
    requires ChainInv(c, s) && ExecReject(s, sender, id).Ok?
    ensures ChainInv(c, ExecReject(s, sender, id).value)
  {
    var s' := ExecReject(s, sender, id).value;
    assert forall e :: e in s'.closed <==> e in s.closed || e == Closed(id, false);
  }

  /** Every call keeps the invariant: each id is started once and paid at most once, exactly as started, and the
      balance of each token is the sum of its Deposited amounts less what the payouts moved out, also for
      tokens that deliver less than requested. */
  lemma ExecInv(c: Crypto, s: Chain, sender: Address, call: ChainCall)
    requires ChainInv(c, s)
    ensures ChainInv(c, Next(c, s, sender, call))
  {
    if Exec(c, s, sender, call).Ok? {
      match call
      case Deposit(token, amount, value, d) => DepositInv(c, s, sender, token, amount, value, d);
      case StartWithdraw(user, token, amount, nonce) => StartInv(c, s, sender, user, token, amount, nonce);
      case FinalizeWithdraw(id, ok) => FinalizeInv(c, s, sender, id, ok);
      case RejectWithdraw(id) => RejectInv(c, s, sender, id);
      case ChangeRoles(_, _) =>
    }
  }

  /** Who may do what: starting takes the NEODAX role, paying or closing the NITEWATCH role. */
  lemma RolesGuard(c: Crypto, s: Chain, sender: Address, call: ChainCall)
    ensures var s' := Next(c, s, sender, call);
      && (s'.started != s.started ==> sender in s.neodax)
      && (s'.payouts != s.payouts || s'.closed != s.closed ==> sender in s.nitewatch)
      && (s'.requests != s.requests ==> sender in s.neodax + s.nitewatch)
  {
  }

  /** A request that is finished stays finished, an existing one exists for ever, and the event and
      transfer logs only grow. */
  ghost predicate Later(s: Chain, s': Chain) {
    && s.started <= s'.started && s.payouts <= s'.payouts && s.closed <= s'.closed && s.deposited <= s'.deposited
    && (forall id :: Exists(s, id) ==>
          Exists(s', id) && (s.requests[id].finalized ==> s'.requests[id] == s.requests[id]))
  }

  lemma ExecLater(c: Crypto, s: Chain, sender: Address, call: ChainCall)
    ensures Later(s, Next(c, s, sender, call))
  {
  }

  // ---- exactly when a call is accepted, and what it does ----

  /** A deposit is accepted exactly if the amount is not zero and, for the native currency, the value sent along is the
      amount, for a token, none is sent along, its call succeeds, and the balance has not fallen. It is announced with
      its sender and what the balance has risen by, and touches nothing else. */
  lemma DepositExact(c: Crypto, s: Chain, sender: Address, token: Address, amount: Word, msgValue: Word, d: Delivery)
    ensures var outcome, before := Exec(c, s, sender, Deposit(token, amount, msgValue, d)),
      BalanceOf(s.balances, token);
      && (outcome.Ok? <==>
            amount != 0 && if token == ZERO then msgValue == amount
                           else msgValue == 0 && d.succeeds && d.balanceAfter >= before)
      && (outcome.Ok? ==>
            var after := if token == ZERO then before + amount else d.balanceAfter;
            outcome.value == s.(balances := s.balances[token := after],
                                deposited := s.deposited + [Deposited(sender, token, after - before)]))
  {
  }

  /** A withdrawal is started exactly if the caller has the role, the amount is not zero, and its id is not known; it is
      stored and announced with exactly what was asked for. */
  lemma StartExact(c: Crypto, s: Chain, sender: Address, user: Address, token: Address, amount: Word, nonce: Word)
    ensures var outcome, id := Exec(c, s, sender, StartWithdraw(user, token, amount, nonce)),
                               WithdrawalId(c, user, token, amount, nonce);
      && (outcome.Ok? <==>
            sender in s.neodax && amount != 0 && !(id in s.requests && s.requests[id].exists_))
      && (outcome.Ok? ==>
            outcome.value == s.(requests := s.requests[id := SimpleRequest(user, token, amount, true, false)],
                                started := s.started + [Started(id, user, token, amount, nonce)]))
  {
  }

  /** A withdrawal is paid exactly if the caller has the role, it exists and is not finished, the balance covers it, the
      transfer succeeds and is not a native one to the contract; its record is cleared, and it is announced as paid. */
  lemma FinalizeExact(c: Crypto, s: Chain, sender: Address, id: Word, ok: bool)
    ensures var outcome := Exec(c, s, sender, FinalizeWithdraw(id, ok));
      && (outcome.Ok? <==>
            && sender in s.nitewatch && id in s.requests && s.requests[id].exists_ && !s.requests[id].finalized
            && var r := s.requests[id];
               r.amount <= BalanceOf(s.balances, r.token) && ok && !(r.token == ZERO && r.user == c.self))
      && (outcome.Ok? ==>
            var r := s.requests[id];
            && outcome.value.requests == s.requests[id := SimpleRequest(ZERO, ZERO, 0, true, true)]
            && outcome.value.closed == s.closed + [Closed(id, true)]
            && outcome.value.payouts == s.payouts + [Payout(id, r.user, r.token, r.amount)]
            && (forall t: Address :: BalanceOf(outcome.value.balances, t)
                  == BalanceOf(s.balances, t) - if t == r.token && r.user != c.self then r.amount else 0))
  {
  }

  /** A withdrawal is closed without payment exactly if the caller has the role, and it exists and is not finished. */
  lemma RejectExact(c: Crypto, s: Chain, sender: Address, id: Word)
    ensures var outcome := Exec(c, s, sender, RejectWithdraw(id));
      && (outcome.Ok? <==>
            sender in s.nitewatch && id in s.requests && s.requests[id].exists_ && !s.requests[id].finalized)
      && (outcome.Ok? ==>
            && outcome.value.requests == s.requests[id := s.requests[id].(finalized := true)]
            && outcome.value.closed == s.closed + [Closed(id, false)]
            && outcome.value.payouts == s.payouts && outcome.value.balances == s.balances)
  {
  }

  /** The error of a rejected call is the first condition it does not meet, in the order of the checks. */
  ghost predicate FirstUnmet(c: Crypto, s: Chain, sender: Address, call: ChainCall, error: Error) {
    match call
    case Deposit(token, amount, msgValue, d) =>
      error == if amount == 0 then ZeroAmount
               else if token == ZERO then MsgValueMismatch
               else if msgValue != 0 then NonZeroMsgValueForERC20
               else if !d.succeeds then TokenCallFailed
               else BalanceUnderflow
    case StartWithdraw(user, token, amount, nonce) =>
      error == if sender !in s.neodax then MissingRole
               else if amount == 0 then ZeroAmount
               else WithdrawalAlreadyExists
    case FinalizeWithdraw(id, ok) =>
      error == if sender !in s.nitewatch then MissingRole
               else if !Exists(s, id) then WithdrawalNotFound
               else if s.requests[id].finalized then WithdrawalAlreadyFinalized
               else if BalanceOf(s.balances, s.requests[id].token) < s.requests[id].amount then InsufficientLiquidity
               else if s.requests[id].token == ZERO then ETHTransferFailed
               else TokenCallFailed
    case RejectWithdraw(id) =>
      error == if sender !in s.nitewatch then MissingRole
               else if !Exists(s, id) then WithdrawalNotFound
               else WithdrawalAlreadyFinalized
    case ChangeRoles(_, _) => false
  }

  lemma RevertExact(c: Crypto, s: Chain, sender: Address, call: ChainCall)
    requires Exec(c, s, sender, call).Revert?
    ensures FirstUnmet(c, s, sender, call, Exec(c, s, sender, call).error)
  {
  }

  // ---- what has been announced ----

  /** Every started id is the hash of what its event announces. */
  ghost predicate IdsAnnounced(c: Crypto, s: Chain) {
    forall e :: e in s.started ==> e.id == WithdrawalId(c, e.user, e.token, e.amount, e.nonce) && e.amount != 0
  }

  /** Every call keeps that, so it holds in every run. */
  lemma AnnouncedStays(c: Crypto, s: Chain, sender: Address, call: ChainCall)
    requires IdsAnnounced(c, s)
    ensures IdsAnnounced(c, Next(c, s, sender, call))
  {
  }
}
