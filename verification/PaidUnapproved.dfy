/** Three runs that end with one decision row, not "approved", of a withdrawal that the chain has paid: "rejected", paid
    before its rejection was mined; "rejected", after the daemon had lost its role; "failed", paid while the daemon
    was down. */
module PaidUnapproved {
  import opened Evm
  import opened Encoding
  import opened Store
  import Windows
  import opened Checker
  import opened Pipeline
  import opened PipelineOnce
  import S = SimpleSpec

  // A limit of 10 an hour on the native token. Address 1 starts withdrawals, address 2 is the daemon.

  function TheEnv(c: Crypto): Env {
    Env(c, Config(map[ZERO := Limit(Some(10), None)], map[]), 2)
  }

  function TheId(c: Crypto): Word {
    WithdrawalId(c, 9, ZERO, 4, 0)
  }

  function TheEvent(c: Crypto): Event {
    Event(TheId(c), 9, ZERO, 4, 1, 0, 0)
  }

  /** Four units are deposited and their withdrawal to address 9 is pending. */
  function PendingChain(c: Crypto, nitewatch: set<Address>): S.Chain {
    S.Chain(map[TheId(c) := S.SimpleRequest(9, ZERO, 4, true, false)], map[ZERO := 4], {1}, nitewatch,
            [S.Started(TheId(c), 9, ZERO, 4, 0)], [S.Deposited(1, ZERO, 4)], [], [])
  }

  function PaidChain(c: Crypto, nitewatch: set<Address>): S.Chain {
    S.Chain(map[TheId(c) := S.SimpleRequest(ZERO, ZERO, 0, true, true)], map[ZERO := 0], {1}, nitewatch,
            [S.Started(TheId(c), 9, ZERO, 4, 0)], [S.Deposited(1, ZERO, 4)], [S.Closed(TheId(c), true)],
            [S.Payout(TheId(c), 9, ZERO, 4)])
  }

  function Fresh(chain: S.Chain, sent: seq<Sent>, worker: Worker): Sys {
    Sys(0, chain, sent, Tables([], [], map[]), worker)
  }

  function OneRow(c: Crypto, d: Decision): Tables {
    Tables([], [ToDecisionRow(TheEvent(c), d)], map[STREAM := Cursor(1, 0)])
  }

  const ALL_FAIL := Faults(true, true)

  lemma EventGenuine(c: Crypto, nitewatch: set<Address>)
    ensures Genuine(PendingChain(c, nitewatch), TheEvent(c)) && Genuine(PaidChain(c, nitewatch), TheEvent(c))
  {
    assert PendingChain(c, nitewatch).started[0].id == TheId(c) == PaidChain(c, nitewatch).started[0].id;
  }

  // ---- what happens on chain ----

  lemma Payment(c: Crypto, nitewatch: set<Address>, sender: Address)
    requires c.self != 9 && sender in nitewatch
    ensures S.Exec(c, PendingChain(c, nitewatch), sender, S.FinalizeWithdraw(TheId(c), true))
      == Ok(PaidChain(c, nitewatch))
  {
    var chain := PendingChain(c, nitewatch);
    assert chain.requests[TheId(c) := S.SimpleRequest(ZERO, ZERO, 0, true, true)] == PaidChain(c, nitewatch).requests;
    assert chain.balances[ZERO := 0] == PaidChain(c, nitewatch).balances;
    assert chain.closed + [S.Closed(TheId(c), true)] == PaidChain(c, nitewatch).closed;
    assert chain.payouts + [S.Payout(TheId(c), 9, ZERO, 4)] == PaidChain(c, nitewatch).payouts;
  }

  function Opening(): seq<Act> {
    [Tick(0), Others(1, S.Deposit(ZERO, 4, 4, S.Delivery(true, 0))), Others(1, S.StartWithdraw(9, ZERO, 4, 0))]
  }

  function FundedChain(): S.Chain {
    S.Chain(map[], map[ZERO := 4], {1}, {2}, [], [S.Deposited(1, ZERO, 4)], [], [])
  }

  lemma Funds(c: Crypto)
    ensures S.Exec(c, S.Genesis({1}, {2}), 1, S.Deposit(ZERO, 4, 4, S.Delivery(true, 0))) == Ok(FundedChain())
  {
    var s := S.Genesis({1}, {2});
    assert s.balances[ZERO := 4] == FundedChain().balances;
    assert s.deposited + [S.Deposited(1, ZERO, 4)] == FundedChain().deposited;
  }

  lemma Begins(c: Crypto)
    ensures S.Exec(c, FundedChain(), 1, S.StartWithdraw(9, ZERO, 4, 0)) == Ok(PendingChain(c, {2}))
  {
    var s := FundedChain();
    assert s.requests[TheId(c) := S.SimpleRequest(9, ZERO, 4, true, false)] == PendingChain(c, {2}).requests;
    assert s.started + [S.Started(TheId(c), 9, ZERO, 4, 0)] == PendingChain(c, {2}).started;
  }

  lemma Opens(c: Crypto)
    ensures RunFrom(TheEnv(c), Start(0, {1}, {2}), Opening()) == Some(Fresh(PendingChain(c, {2}), [], Idle))
  {
    var e, s0 := TheEnv(c), Start(0, {1}, {2});
    Funds(c);
    Begins(c);
    ThreeActs(e, s0, Opening()[0], s0, Opening()[1], Fresh(FundedChain(), [], Idle),
              Opening()[2], Fresh(PendingChain(c, {2}), [], Idle));
  }

  /** One transaction of the daemon is mined; the receipt says whether it succeeded. */
  lemma MineStep(c: Crypto, s: Sys, tx: nat, block: nat, s': Sys)
    requires tx < |s.sent| && s.sent[tx].receipt.None?
    requires var call := MineCall(s.sent[tx], true);
      && s'.chain == S.Next(c, s.chain, 2, call)
      && s'.sent == s.sent[tx := s.sent[tx].(receipt := Some(Receipt(S.Exec(c, s.chain, 2, call).Ok?, block)))]
    requires s' == s.(chain := s'.chain, sent := s'.sent)
    ensures Step(TheEnv(c), s, Mine(tx, true, block)) == Some(s')
  {
  }

  /** The database does not answer: the event is taken up, blocked, and a rejection is sent. */
  function Blocking(c: Crypto): seq<Act> {
    [Receive(TheEvent(c), false), CheckGlobal(ALL_FAIL), SendReject(true, 8)]
  }

  lemma Blocks(c: Crypto, chain: S.Chain, sent: seq<Sent>)
    requires Genuine(chain, TheEvent(c))
    ensures RunFrom(TheEnv(c), Fresh(chain, sent, Idle), Blocking(c))
         == Some(Fresh(chain, sent + [Sent(TheId(c), false, 8, None)], AwaitingReject(TheEvent(c), |sent|)))
  {
    var e, ev := TheEnv(c), TheEvent(c);
    ThreeActs(e, Fresh(chain, sent, Idle), Blocking(c)[0], Fresh(chain, sent, Checking(ev)),
              Blocking(c)[1], Fresh(chain, sent, Blocked(ev)), Blocking(c)[2],
              Fresh(chain, sent + [Sent(TheId(c), false, 8, None)], AwaitingReject(ev, |sent|)));
  }

  // ---- paid before the rejection ----

  function Clearing(c: Crypto): seq<Act> {
    [Receive(TheEvent(c), false), CheckGlobal(NO_FAULTS), CheckUser(NO_FAULTS)]
  }

  lemma FitsLimits(c: Crypto)
    ensures GlobalVerdict(TheEnv(c).cfg, [], ZERO, 4, 0, NO_FAULTS).None?
    ensures UserVerdict(TheEnv(c).cfg, [], 9, ZERO, 4, 0, NO_FAULTS).None?
  {
    assert SumSince([], OfToken(ZERO), Windows.Truncate(0, Windows.HOUR)) == 0;
    assert TheEnv(c).cfg.globalLimits[ZERO] == Limit(Some(10), None);
  }

  lemma Passes(c: Crypto, chain: S.Chain, sent: seq<Sent>)
    ensures var e, ev := TheEnv(c), TheEvent(c);
      && Step(e, Fresh(chain, sent, Checking(ev)), CheckGlobal(NO_FAULTS))
        == Some(Fresh(chain, sent, CheckingUser(ev, 0)))
      && Step(e, Fresh(chain, sent, CheckingUser(ev, 0)), CheckUser(NO_FAULTS))
         == Some(Fresh(chain, sent, Cleared(ev, 0, 0)))
  {
    FitsLimits(c);
  }

  lemma Clears(c: Crypto, chain: S.Chain, sent: seq<Sent>)
    requires Genuine(chain, TheEvent(c))
    ensures RunFrom(TheEnv(c), Fresh(chain, sent, Idle), Clearing(c))
      == Some(Fresh(chain, sent, Cleared(TheEvent(c), 0, 0)))
  {
    var e, ev := TheEnv(c), TheEvent(c);
    Passes(c, chain, sent);
    ThreeActs(e, Fresh(chain, sent, Idle), Clearing(c)[0], Fresh(chain, sent, Checking(ev)),
              Clearing(c)[1], Fresh(chain, sent, CheckingUser(ev, 0)), Clearing(c)[2],
              Fresh(chain, sent, Cleared(ev, 0, 0)));
  }

  function Paying(): seq<Act> {
    [SendFinalize(true, 7), Crash, Mine(0, true, 1)]
  }

  lemma PaymentMined(c: Crypto, worker: Worker)
    requires c.self != 9
    ensures Step(TheEnv(c), Fresh(PendingChain(c, {2}), [Sent(TheId(c), true, 7, None)], worker), Mine(0, true, 1))
         == Some(Fresh(PaidChain(c, {2}), [Sent(TheId(c), true, 7, Some(Receipt(true, 1)))], worker))
  {
    var sent, sent' := [Sent(TheId(c), true, 7, None)], [Sent(TheId(c), true, 7, Some(Receipt(true, 1)))];
    Payment(c, {2}, 2);
    assert sent[0 := sent'[0]] == sent';
    MineStep(c, Fresh(PendingChain(c, {2}), sent, worker), 0, 1, Fresh(PaidChain(c, {2}), sent', worker));
  }

  lemma Pays(c: Crypto)
    requires c.self != 9
    ensures RunFrom(TheEnv(c), Fresh(PendingChain(c, {2}), [], Cleared(TheEvent(c), 0, 0)), Paying())
         == Some(Fresh(PaidChain(c, {2}), [Sent(TheId(c), true, 7, Some(Receipt(true, 1)))], Idle))
  {
    var e, ev, chain := TheEnv(c), TheEvent(c), PendingChain(c, {2});
    var sent := [Sent(TheId(c), true, 7, None)];
    assert [] + sent == sent;
    PaymentMined(c, Idle);
    ThreeActs(e, Fresh(chain, [], Cleared(ev, 0, 0)), Paying()[0], Fresh(chain, sent, AwaitingFinalize(ev, 0, 0, 0)),
              Paying()[1], Fresh(chain, sent, Idle), Paying()[2],
              Fresh(PaidChain(c, {2}), [Sent(TheId(c), true, 7, Some(Receipt(true, 1)))], Idle));
  }

  function Recording(): seq<Act> {
    [Mine(1, true, 2), AwaitReject(true), RecordDecision(false)]
  }

  lemma RowRecorded(c: Crypto, chain: S.Chain, sent: seq<Sent>, d: Decision)
    ensures Step(TheEnv(c), Fresh(chain, sent, Deciding(TheEvent(c), d)), RecordDecision(false))
         == Some(Sys(0, chain, sent, OneRow(c, d), Idle))
  {
    assert [] + OneRow(c, d).events == OneRow(c, d).events;
    assert map[][STREAM := Cursor(1, 0)] == OneRow(c, d).cursors;
  }

  lemma Records(c: Crypto, first: Sent)
    ensures RunFrom(TheEnv(c), Fresh(PaidChain(c, {2}), [first, Sent(TheId(c), false, 8, None)],
                                     AwaitingReject(TheEvent(c), 1)), Recording())
         == Some(Sys(0, PaidChain(c, {2}), [first, Sent(TheId(c), false, 8, Some(Receipt(false, 2)))],
                     OneRow(c, Rejected), Idle))
  {
    var e, ev, chain := TheEnv(c), TheEvent(c), PaidChain(c, {2});
    var unmined := [first, Sent(TheId(c), false, 8, None)];
    var sent := [first, Sent(TheId(c), false, 8, Some(Receipt(false, 2)))];
    assert S.Exec(c, chain, 2, S.RejectWithdraw(TheId(c))).Revert?;
    assert unmined[1 := sent[1]] == sent;
    MineStep(c, Fresh(chain, unmined, AwaitingReject(ev, 1)), 1, 2, Fresh(chain, sent, AwaitingReject(ev, 1)));
    RowRecorded(c, chain, sent, Rejected);
    ThreeActs(e, Fresh(chain, unmined, AwaitingReject(ev, 1)),
              Recording()[0], Fresh(chain, sent, AwaitingReject(ev, 1)),
              Recording()[1], Fresh(chain, sent, Deciding(ev, Rejected)),
              Recording()[2], Sys(0, chain, sent, OneRow(c, Rejected), Idle));
  }

  ghost predicate PaidDespite(s: Sys, id: Word, d: Decision) {
    && |s.tables.events| == 1 && s.tables.events[0].withdrawalId == id && s.tables.events[0].decision == d
    && PaidId(s.chain, id)
  }

  lemma EndsBadly(c: Crypto, s: Sys, nitewatch: set<Address>, d: Decision)
    requires s.chain == PaidChain(c, nitewatch) && s.tables == OneRow(c, d)
    ensures PaidDespite(s, TheId(c), d)
  {
    assert s.chain.payouts[0] in s.chain.payouts;
  }

  function PaidOnce(c: Crypto): Sent {
    Sent(TheId(c), true, 7, Some(Receipt(true, 1)))
  }

  /** The finalization is sent, the daemon crashes, and the finalization is mined and pays. */
  lemma PaidWhileDown(c: Crypto) returns (acts: seq<Act>)
    requires c.self != 9
    ensures RunFrom(TheEnv(c), Start(0, {1}, {2}), acts) == Some(Fresh(PaidChain(c, {2}), [PaidOnce(c)], Idle))
  {
    var e, s0 := TheEnv(c), Start(0, {1}, {2});
    acts := Opening();
    Opens(c);
    RunConcat(e, s0, acts, Clearing(c));
    EventGenuine(c, {2});
    Clears(c, PendingChain(c, {2}), []);
    acts := acts + Clearing(c);
    RunConcat(e, s0, acts, Paying());
    Pays(c);
    acts := acts + Paying();
  }

  /** Sent, mined and paid while the daemon was down; delivered again, blocked because the database did not
      answer, and "rejected" by a transaction that reverted. */
  lemma PaidThenRejected(c: Crypto) returns (acts: seq<Act>)
    requires c.self != 9
    ensures RunFrom(TheEnv(c), Start(0, {1}, {2}), acts).Some?
    ensures PaidDespite(RunFrom(TheEnv(c), Start(0, {1}, {2}), acts).value, WithdrawalId(c, 9, ZERO, 4, 0), Rejected)
  {
    var e, s0 := TheEnv(c), Start(0, {1}, {2});
    acts := PaidWhileDown(c);
    RunConcat(e, s0, acts, Blocking(c));
    EventGenuine(c, {2});
    Blocks(c, PaidChain(c, {2}), [PaidOnce(c)]);
    acts := acts + Blocking(c);
    RunConcat(e, s0, acts, Recording());
    assert [PaidOnce(c)] + [Sent(TheId(c), false, 8, None)] == [PaidOnce(c), Sent(TheId(c), false, 8, None)];
    Records(c, PaidOnce(c));
    acts := acts + Recording();
    EndsBadly(c, RunFrom(e, s0, acts).value, {2}, Rejected);
  }

  // ---- paid before a second finalization ----

  function Repeating(): seq<Act> {
    [SendFinalize(true, 9), Mine(1, true, 2), AwaitFinalize(true)]
  }

  lemma Repeats(c: Crypto)
    ensures RunFrom(TheEnv(c), Fresh(PaidChain(c, {2}), [PaidOnce(c)], Cleared(TheEvent(c), 0, 0)), Repeating())
         == Some(Fresh(PaidChain(c, {2}), [PaidOnce(c), Sent(TheId(c), true, 9, Some(Receipt(false, 2)))],
                       Deciding(TheEvent(c), Failed)))
  {
    var e, ev, chain := TheEnv(c), TheEvent(c), PaidChain(c, {2});
    var unmined, sent := [PaidOnce(c), Sent(TheId(c), true, 9, None)],
                         [PaidOnce(c), Sent(TheId(c), true, 9, Some(Receipt(false, 2)))];
    assert [PaidOnce(c)] + [unmined[1]] == unmined && unmined[1 := sent[1]] == sent;
    assert S.Exec(c, chain, 2, S.FinalizeWithdraw(TheId(c), true)).Revert?;
    MineStep(c, Fresh(chain, unmined, AwaitingFinalize(ev, 0, 0, 1)), 1, 2,
             Fresh(chain, sent, AwaitingFinalize(ev, 0, 0, 1)));
    ThreeActs(e, Fresh(chain, [PaidOnce(c)], Cleared(ev, 0, 0)),
              Repeating()[0], Fresh(chain, unmined, AwaitingFinalize(ev, 0, 0, 1)),
              Repeating()[1], Fresh(chain, sent, AwaitingFinalize(ev, 0, 0, 1)),
              Repeating()[2], Fresh(chain, sent, Deciding(ev, Failed)));
  }

  /** Paid while the daemon was down; delivered again, cleared again because no payment is in the limit log, and
      "failed" when the second finalization reverts. */
  lemma PaidThenFailed(c: Crypto) returns (acts: seq<Act>)
    requires c.self != 9
    ensures RunFrom(TheEnv(c), Start(0, {1}, {2}), acts).Some?
    ensures PaidDespite(RunFrom(TheEnv(c), Start(0, {1}, {2}), acts).value, WithdrawalId(c, 9, ZERO, 4, 0), Failed)
  {
    var e, s0 := TheEnv(c), Start(0, {1}, {2});
    acts := PaidWhileDown(c);
    RunConcat(e, s0, acts, Clearing(c));
    EventGenuine(c, {2});
    Clears(c, PaidChain(c, {2}), [PaidOnce(c)]);
    acts := acts + Clearing(c);
    RunConcat(e, s0, acts, Repeating());
    Repeats(c);
    acts := acts + Repeating();
    RunAppend(e, s0, acts, RecordDecision(false));
    RowRecorded(c, PaidChain(c, {2}), RunFrom(e, s0, acts).value.sent, Failed);
    acts := acts + [RecordDecision(false)];
    EndsBadly(c, RunFrom(e, s0, acts).value, {2}, Failed);
  }

  // ---- the role lost before the rejection ----

  function Losing(): seq<Act> {
    [Others(1, S.ChangeRoles({1}, {3})), Mine(0, true, 2), AwaitReject(true)]
  }

  lemma Loses(c: Crypto)
    ensures RunFrom(TheEnv(c),
                    Fresh(PendingChain(c, {2}), [Sent(TheId(c), false, 8, None)], AwaitingReject(TheEvent(c), 0)),
                    Losing())
         == Some(Fresh(PendingChain(c, {3}), [Sent(TheId(c), false, 8, Some(Receipt(false, 2)))],
                       Deciding(TheEvent(c), Rejected)))
  {
    var e, ev := TheEnv(c), TheEvent(c);
    var sent, sent' := [Sent(TheId(c), false, 8, None)], [Sent(TheId(c), false, 8, Some(Receipt(false, 2)))];
    assert S.Exec(c, PendingChain(c, {3}), 2, S.RejectWithdraw(TheId(c))).Revert?;
    assert sent[0 := sent'[0]] == sent';
    MineStep(c, Fresh(PendingChain(c, {3}), sent, AwaitingReject(ev, 0)), 0, 2,
          Fresh(PendingChain(c, {3}), sent', AwaitingReject(ev, 0)));
    ThreeActs(e, Fresh(PendingChain(c, {2}), sent, AwaitingReject(ev, 0)),
              Losing()[0], Fresh(PendingChain(c, {3}), sent, AwaitingReject(ev, 0)),
              Losing()[1], Fresh(PendingChain(c, {3}), sent', AwaitingReject(ev, 0)),
              Losing()[2], Fresh(PendingChain(c, {3}), sent', Deciding(ev, Rejected)));
  }

  function Closing(c: Crypto): seq<Act> {
    [RecordDecision(false), Others(3, S.FinalizeWithdraw(TheId(c), true)), Tick(0)]
  }

  lemma Closes(c: Crypto, sent: seq<Sent>)
    requires c.self != 9
    ensures RunFrom(TheEnv(c), Fresh(PendingChain(c, {3}), sent, Deciding(TheEvent(c), Rejected)), Closing(c))
         == Some(Sys(0, PaidChain(c, {3}), sent, OneRow(c, Rejected), Idle))
  {
    var e := TheEnv(c);
    Payment(c, {3}, 3);
    RowRecorded(c, PendingChain(c, {3}), sent, Rejected);
    var s1 := Sys(0, PendingChain(c, {3}), sent, OneRow(c, Rejected), Idle);
    var s2 := Sys(0, PaidChain(c, {3}), sent, OneRow(c, Rejected), Idle);
    ThreeActs(e, Fresh(PendingChain(c, {3}), sent, Deciding(TheEvent(c), Rejected)),
              Closing(c)[0], s1, Closing(c)[1], s2, Closing(c)[2], s2);
  }

  /** Blocked, and "rejected" by a transaction that reverted because the role had gone to address 3, which pays. */
  lemma RejectedThenPaid(c: Crypto) returns (acts: seq<Act>)
    requires c.self != 9
    ensures RunFrom(TheEnv(c), Start(0, {1}, {2}), acts).Some?
    ensures PaidDespite(RunFrom(TheEnv(c), Start(0, {1}, {2}), acts).value, WithdrawalId(c, 9, ZERO, 4, 0), Rejected)
  {
    var e, s0 := TheEnv(c), Start(0, {1}, {2});
    var unmined := Sent(TheId(c), false, 8, None);
    acts := Opening();
    Opens(c);
    RunConcat(e, s0, acts, Blocking(c));
    EventGenuine(c, {2});
    Blocks(c, PendingChain(c, {2}), []);
    assert [] + [unmined] == [unmined];
    acts := acts + Blocking(c);
    RunConcat(e, s0, acts, Losing());
    Loses(c);
    acts := acts + Losing();
    RunConcat(e, s0, acts, Closing(c));
    Closes(c, [Sent(TheId(c), false, 8, Some(Receipt(false, 2)))]);
    acts := acts + Closing(c);
    EndsBadly(c, RunFrom(e, s0, acts).value, {3}, Rejected);
  }
}
