/** The daemon as a protocol: one worker that checks, sends, waits, stamps, saves and records, next to a chain
    on which others act too, a clock, a database that may refuse, and crashes between any two effects. */
module Pipeline {
  import opened Evm
  import opened Store
  import opened Windows
  import opened Checker
  import S = SimpleSpec

  /** Fixed for a run: contract parameters, limits, and the daemon's chain account. */
  datatype Env = Env(crypto: Crypto, cfg: Config, account: Address)

  datatype Event = Event(id: Word, user: Address, token: Address, amount: Word, blockNumber: Uint64, txHash: Word,
                         logIndex: Uint64)

  /** A transaction the daemon has sent; it may be mined at any later time, or never. */
  datatype Sent = Sent(id: Word, finalize: bool, hash: Word, receipt: Option<Receipt>)

  datatype Receipt = Receipt(succeeded: bool, blockNumber: nat)

  /** Where `processWithdrawal` stands. The times are the clock readings of the two checks and of the record. */
  datatype Worker =
    | Idle
    | Checking(ev: Event)
    | CheckingUser(ev: Event, globalAt: Time)
    | Cleared(ev: Event, globalAt: Time, userAt: Time)
    | AwaitingFinalize(ev: Event, globalAt: Time, userAt: Time, tx: nat)
    | Mined(ev: Event, globalAt: Time, userAt: Time, hash: Word, block: nat)
    | Stamped(ev: Event, globalAt: Time, userAt: Time, row: Withdrawal)
    | Blocked(ev: Event)
    | AwaitingReject(ev: Event, tx: nat)
    | Deciding(ev: Event, decision: Decision)

  datatype Sys = Sys(clock: Time, chain: S.Chain, sent: seq<Sent>, tables: Tables, worker: Worker)

  datatype Act =
    | Tick(now: Time)
    | Others(sender: Address, call: S.ChainCall)
    | Mine(tx: nat, transferSucceeds: bool, blockNumber: nat)
    | Receive(ev: Event, dbFails: bool)
    | CheckGlobal(faults: Faults)
    | CheckUser(faults: Faults)
    | SendFinalize(accepted: bool, hash: Word)
    | AwaitFinalize(answered: bool)
    | Stamp
    | SaveRow(dbFails: bool)
    | SendReject(accepted: bool, hash: Word)
    | AwaitReject(answered: bool)
    | RecordDecision(dbFails: bool)
    | Crash

  /** The event was emitted by the contract. */
  predicate Genuine(chain: S.Chain, ev: Event) {
    exists i :: 0 <= i < |chain.started| && chain.started[i].id == ev.id && chain.started[i].user == ev.user
      && chain.started[i].token == ev.token && chain.started[i].amount == ev.amount
  }

  function ToRow(ev: Event, block: nat, hash: Word, stamp: Time): Withdrawal {
    Withdrawal(ev.id, ev.user, ev.token, ev.amount, block, hash, stamp)
  }

  function ToDecisionRow(ev: Event, d: Decision): WithdrawEventModel {
    WithdrawEventModel(ev.id, ev.user, ev.token, Decimal.ToText(ev.amount), d, ev.blockNumber, ev.txHash, ev.logIndex)
  }

  function MineCall(t: Sent, transferSucceeds: bool): S.ChainCall {
    if t.finalize then S.FinalizeWithdraw(t.id, transferSucceeds) else S.RejectWithdraw(t.id)
  }

  /** One step of the whole system, None when the step is not possible. A wait ends with the receipt, or without one:
      when the node reports an error or the context is cancelled. */
  function Step(e: Env, s: Sys, act: Act): Option<Sys> {
    match act
    case Tick(now) => if now >= s.clock then Some(s.(clock := now)) else None
    case Others(sender, call) => Some(s.(chain := S.Next(e.crypto, s.chain, sender, call)))
    case Mine(tx, ok, block) =>
      if tx < |s.sent| && s.sent[tx].receipt.None? then
        var outcome := S.Exec(e.crypto, s.chain, e.account, MineCall(s.sent[tx], ok));
        Some(s.(chain := S.Next(e.crypto, s.chain, e.account, MineCall(s.sent[tx], ok)),
                sent := s.sent[tx := s.sent[tx].(receipt := Some(Receipt(outcome.Ok?, block)))]))
      else None
    case Crash => Some(s.(worker := Idle))
    case _ => WorkerStep(e, s, act)
  }

  function WorkerStep(e: Env, s: Sys, act: Act): Option<Sys> {
    match (act, s.worker)
    case (Receive(ev, dbFails), Idle) =>
      if !Genuine(s.chain, ev) then None
      else if !dbFails && HasEvent(s.tables.events, ev.id) then Some(s)
      else Some(s.(worker := Checking(ev)))
    case (CheckGlobal(f), Checking(ev)) =>
      if ev.amount == 0 || ev.user == ZERO || GlobalVerdict(e.cfg, s.tables.log, ev.token, ev.amount, s.clock, f).Some?
      then Some(s.(worker := Blocked(ev)))
      else Some(s.(worker := CheckingUser(ev, s.clock)))
    case (CheckUser(f), CheckingUser(ev, t1)) =>
      if UserVerdict(e.cfg, s.tables.log, ev.user, ev.token, ev.amount, s.clock, f).Some?
      then Some(s.(worker := Blocked(ev)))
      else Some(s.(worker := Cleared(ev, t1, s.clock)))
    case (SendFinalize(accepted, hash), Cleared(ev, t1, t2)) =>
      if accepted then Some(s.(sent := s.sent + [Sent(ev.id, true, hash, None)],
                               worker := AwaitingFinalize(ev, t1, t2, |s.sent|)))
      else Some(s.(worker := Deciding(ev, Failed)))
    case (AwaitFinalize(answered), AwaitingFinalize(ev, t1, t2, tx)) =>
      if !answered || tx >= |s.sent| || s.sent[tx].receipt.None? then Some(s.(worker := Deciding(ev, Failed)))
      else if s.sent[tx].receipt.value.succeeded
      then Some(s.(worker := Mined(ev, t1, t2, s.sent[tx].hash, s.sent[tx].receipt.value.blockNumber)))
      else Some(s.(worker := Deciding(ev, Failed)))
    case (Stamp, Mined(ev, t1, t2, hash, block)) =>
      Some(s.(worker := Stamped(ev, t1, t2, ToRow(ev, block, hash, s.clock))))
    case (SaveRow(dbFails), Stamped(ev, _, _, row)) =>
      Some(s.(tables := Saved(s.tables, row, dbFails), worker := Deciding(ev, Approved)))
    case (SendReject(accepted, hash), Blocked(ev)) =>
      if accepted then Some(s.(sent := s.sent + [Sent(ev.id, false, hash, None)],
                               worker := AwaitingReject(ev, |s.sent|)))
      else Some(s.(worker := Deciding(ev, Failed)))
    case (AwaitReject(answered), AwaitingReject(ev, tx)) =>
      if !answered || tx >= |s.sent| || s.sent[tx].receipt.None? then Some(s.(worker := Deciding(ev, Failed)))
      else Some(s.(worker := Deciding(ev, Rejected)))
    case (RecordDecision(dbFails), Deciding(ev, d)) =>
      Some(s.(tables := EventRecorded(s.tables, ToDecisionRow(ev, d), dbFails), worker := Idle))
    case _ => None
  }

  function RunFrom(e: Env, s: Sys, acts: seq<Act>): Option<Sys>
    decreases |acts|
  {
    if acts == [] then Some(s)
    else
      match Step(e, s, acts[0])
      case None => None
      case Some(s') => RunFrom(e, s', acts[1..])
  }

  function Start(clock: Time, neodax: set<Address>, nitewatch: set<Address>): Sys {
    Sys(clock, S.Genesis(neodax, nitewatch), [], Tables([], [], map[]), Idle)
  }

  lemma {:induction false} RunConcat(e: Env, s: Sys, acts: seq<Act>, more: seq<Act>)
    requires RunFrom(e, s, acts).Some?
    ensures RunFrom(e, s, acts + more) == RunFrom(e, RunFrom(e, s, acts).value, more)
    decreases |acts|
  {
    if acts == [] {
      assert [] + more == more;
    } else {
      assert (acts + more)[1..] == acts[1..] + more;
      RunConcat(e, Step(e, s, acts[0]).value, acts[1..], more);
    }
  }

  lemma {:induction false} RunAppend(e: Env, s: Sys, acts: seq<Act>, act: Act)
    requires RunFrom(e, s, acts).Some?
    ensures RunFrom(e, s, acts + [act]) == Step(e, RunFrom(e, s, acts).value, act)
    decreases |acts|
  {
    if acts == [] {
      assert ([] + [act])[1..] == [];
    } else {
      assert (acts + [act])[1..] == acts[1..] + [act];
      RunAppend(e, Step(e, s, acts[0]).value, acts[1..], act);
    }
  }

  lemma RunCons(e: Env, s: Sys, act: Act, s': Sys, rest: seq<Act>)
    requires Step(e, s, act) == Some(s')
    ensures RunFrom(e, s, [act] + rest) == RunFrom(e, s', rest)
  {
    assert ([act] + rest)[1..] == rest;
  }

  lemma ThreeActs(e: Env, s: Sys, a: Act, s1: Sys, b: Act, s2: Sys, c: Act, s3: Sys)
    requires Step(e, s, a) == Some(s1) && Step(e, s1, b) == Some(s2) && Step(e, s2, c) == Some(s3)
    ensures RunFrom(e, s, [a, b, c]) == Some(s3)
  {
    RunCons(e, s, a, s1, [b, c]);
    RunCons(e, s1, b, s2, [c]);
    RunCons(e, s2, c, s3, []);
    assert [a, b, c] == [a] + [b, c] && [b, c] == [b] + [c] && [c] == [c] + [];
  }
}
