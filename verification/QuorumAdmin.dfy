/** The history of signer changes in a run, including those made from inside payouts: every one is
    co-signed, no authorisation is used twice, and the quorum has a floor. */
module QuorumAdmin {
  import opened Evm
  import opened Encoding
  import opened SignerTable
  import opened QuorumSpec
  import opened QuorumRuns

  /** The state in which a transaction hands control to signer management, and the calls made there.
      For a signer-management transaction that is the transaction itself. */
  function Reentry(c: Crypto, s: State, tx: Tx): (State, seq<AdminTx>) {
    if Exec(c, s, tx).Revert? then (s, [])
    else
      match tx.call
      case Admin(op) => (s, [AdminTx(tx.sender, op)])
      case Deposit(token, amount, _, ext) =>
        if token == ZERO then (s, []) else (Credited(s, token, amount), ext.callback)
      case FinalizeWithdraw(id, ext) =>
        var approved := Approved(s, tx.sender, id);
        if |ValidApprovers(approved, id)| < s.withdrawals[id].requiredQuorum then (s, [])
        else (PaidOut(c, approved, id), ext.callback)
      case _ => (s, [])
  }

  ghost predicate SameSigners(s: State, s': State) {
    s'.table == s.table && s'.quorum == s.quorum && s'.signerNonce == s.signerNonce
  }

  /** Signers, quorum and nonce change through `Reentry`'s calls and in no other way. */
  lemma ReentryExact(c: Crypto, s: State, tx: Tx)
    ensures var (s0, calls) := Reentry(c, s, tx);
      SameSigners(s, s0) && SameSigners(Callback(c, s0, tx.now, calls), Next(c, s, tx))
  {
    if Exec(c, s, tx).Ok? {
      match tx.call
      case Admin(op) => CallbackOfOne(c, s, tx.now, AdminTx(tx.sender, op));
      case Deposit(_, _, _, _) =>
      case StartWithdraw(_, _, _, _) =>
      case FinalizeWithdraw(_, _) =>
      case RejectWithdraw(_) =>
    }
  }

  lemma CallbackOfOne(c: Crypto, s: State, now: Timestamp, call: AdminTx)
    requires ExecAdmin(c, s, call.sender, now, call.op).Ok?
    ensures Callback(c, s, now, [call]) == ExecAdmin(c, s, call.sender, now, call.op).value
  {
    var s' := ExecAdmin(c, s, call.sender, now, call.op).value;
    assert [call][1..] == [] && Callback(c, s', now, []) == s';
  }

  /** One accepted signer change. */
  datatype Grant = Grant(before: State, sender: Address, now: Timestamp, op: AdminOp, after: State)

  function Grants(c: Crypto, s: State, now: Timestamp, calls: seq<AdminTx>): seq<Grant>
    decreases |calls|
  {
    if calls == [] then []
    else
      match ExecAdmin(c, s, calls[0].sender, now, calls[0].op)
      case Ok(s') => [Grant(s, calls[0].sender, now, calls[0].op, s')] + Grants(c, s', now, calls[1..])
      case Revert(_) => Grants(c, s, now, calls[1..])
  }

  function StepGrants(c: Crypto, s: State, tx: Tx): seq<Grant> {
    Grants(c, Reentry(c, s, tx).0, tx.now, Reentry(c, s, tx).1)
  }

  /** The ledger of a run lists, transaction by transaction, the accepted signer changes; those of a reverted
      transaction are undone with it and do not appear. */
  ghost predicate Recorded(c: Crypto, r: Run, ledger: seq<seq<Grant>>) {
    |ledger| == |r.txs| < |r.states| && forall i :: 0 <= i < |ledger| ==> RecordedAt(c, r, ledger, i)
  }

  ghost predicate RecordedAt(c: Crypto, r: Run, ledger: seq<seq<Grant>>, i: nat)
    requires i < |ledger| == |r.txs| < |r.states|
  {
    ledger[i] == StepGrants(c, r.states[i], r.txs[i])
  }

  lemma {:induction false} LedgerOf(c: Crypto, r: Run) returns (ledger: seq<seq<Grant>>)
    requires |r.txs| < |r.states|
    ensures Recorded(c, r, ledger)
  {
    ledger := seq(|r.txs|, i requires 0 <= i < |r.txs| => StepGrants(c, r.states[i], r.txs[i]));
    assert forall i :: 0 <= i < |ledger| ==> RecordedAt(c, r, ledger, i);
  }

  /** The signer changes of the first n transactions, in order. */
  function History(ledger: seq<seq<Grant>>, n: nat): seq<Grant>
    requires n <= |ledger|
  {
    if n == 0 then [] else History(ledger, n - 1) + ledger[n - 1]
  }

  ghost predicate Granted(c: Crypto, g: Grant) {
    SignersInv(g.before) && ExecAdmin(c, g.before, g.sender, g.now, g.op) == Ok(g.after)
  }

  /** The grants number the nonce: the i-th runs at nonce start + i and the final nonce is start + count. */
  ghost predicate Numbered(c: Crypto, gs: seq<Grant>, start: nat) {
    forall i :: 0 <= i < |gs| ==> Granted(c, gs[i]) && gs[i].before.signerNonce == start + i
  }

  lemma {:induction false} GrantsNumbered(c: Crypto, s: State, now: Timestamp, calls: seq<AdminTx>)
    requires SignersInv(s)
    ensures Numbered(c, Grants(c, s, now, calls), s.signerNonce)
    ensures Callback(c, s, now, calls).signerNonce == s.signerNonce + |Grants(c, s, now, calls)|
    decreases |calls|
  {
    if calls != [] {
      var first := ExecAdmin(c, s, calls[0].sender, now, calls[0].op);
      if first.Ok? {
        AdminExact(c, s, calls[0].sender, now, calls[0].op);
        GrantsNumbered(c, first.value, now, calls[1..]);
      } else {
        GrantsNumbered(c, s, now, calls[1..]);
      }
    }
  }

  lemma StepNumbered(c: Crypto, r: Run, ledger: seq<seq<Grant>>, i: nat)
    requires IsRun(c, r) && Recorded(c, r, ledger) && i < |r.txs|
    ensures Numbered(c, ledger[i], r.states[i].signerNonce)
    ensures r.states[i + 1].signerNonce == r.states[i].signerNonce + |ledger[i]|
  {
    var s, tx := r.states[i], r.txs[i];
    StepAt(c, r, i);
    assert RecordedAt(c, r, ledger, i);
    ReentryExact(c, s, tx);
    GrantsNumbered(c, Reentry(c, s, tx).0, tx.now, Reentry(c, s, tx).1);
  }

  /** The nonce counts the accepted signer changes of the whole run. */
  lemma {:induction false} NonceCounts(c: Crypto, r: Run, ledger: seq<seq<Grant>>, n: nat)
    requires IsRun(c, r) && Recorded(c, r, ledger) && n <= |r.txs|
    ensures r.states[n].signerNonce == |History(ledger, n)|
  {
    if n == 0 {
      InitialState(c, r);
    } else {
      NonceCounts(c, r, ledger, n - 1);
      StepNumbered(c, r, ledger, n - 1);
    }
  }

  /** The i-th of them was granted in a sound state, at nonce i. */
  lemma {:induction false} HistoryNumbered(c: Crypto, r: Run, ledger: seq<seq<Grant>>, n: nat, i: nat)
    requires IsRun(c, r) && Recorded(c, r, ledger) && n <= |r.txs| && i < |History(ledger, n)|
    ensures Granted(c, History(ledger, n)[i]) && History(ledger, n)[i].before.signerNonce == i
  {
    var earlier := |History(ledger, n - 1)|;
    if i < earlier {
      HistoryNumbered(c, r, ledger, n - 1, i);
    } else {
      NonceCounts(c, r, ledger, n - 1);
      StepNumbered(c, r, ledger, n - 1);
      assert History(ledger, n)[i] == ledger[n - 1][i - earlier];
    }
  }

  /** Authorisations are single-use: without a hash collision among the messages involved, no digest is
      accepted at two different signer changes of a run, inside or outside payouts. */
  lemma SingleUse(c: Crypto, r: Run, ledger: seq<seq<Grant>>, n: nat, i: nat, j: nat)
    requires IsRun(c, r) && Recorded(c, r, ledger) && n <= |r.txs| && i < j < |History(ledger, n)|
    requires var h := History(ledger, n);
      CollisionFreeOn(c, HashedMessages(c, h[i].op, h[i].before.signerNonce)
        + HashedMessages(c, h[j].op, h[j].before.signerNonce))
    ensures var h := History(ledger, n);
      Digest(c, h[i].op, h[i].before.signerNonce) != Digest(c, h[j].op, h[j].before.signerNonce)
  {
    var h := History(ledger, n);
    HistoryNumbered(c, r, ledger, n, i);
    HistoryNumbered(c, r, ledger, n, j);
    DigestInjective(c, h[i].op, h[i].before.signerNonce, h[j].op, h[j].before.signerNonce);
  }

  /** Behind every signer change of a run stand at least as many distinct signers as the quorum asks for at
      that moment: its caller and co-signers who signed the digest for that very nonce. */
  lemma EveryChangeCoSigned(c: Crypto, r: Run, ledger: seq<seq<Grant>>, n: nat, i: nat) returns (authors: seq<Address>)
    requires IsRun(c, r) && Recorded(c, r, ledger) && n <= |r.txs| && i < |History(ledger, n)|
    ensures var g := History(ledger, n)[i];
      && g.before.signerNonce == i
      && SignedBy(c, Digest(c, g.op, i), g.op.signatures, authors)
      && Elems(authors) + {g.sender} <= g.before.table.isSigner
      && |Elems(authors) + {g.sender}| >= g.before.quorum
      && g.now <= g.op.deadline
  {
    HistoryNumbered(c, r, ledger, n, i);
    var g := History(ledger, n)[i];
    authors := AdminAuthorised(c, g.before, g.sender, g.now, g.op);
  }

  // ---- the quorum floor ----

  /** The smallest of `bound` and the signer counts right after each change. */
  function Lowest(bound: nat, gs: seq<Grant>): nat {
    if gs == [] then bound
    else
      var low, count := Lowest(bound, gs[..|gs| - 1]), |gs[|gs| - 1].after.table.signers|;
      if count < low then count else low
  }

  /** It is their minimum: none of them is smaller, and one of them it is. */
  lemma {:induction false} LowestIsMinimum(bound: nat, gs: seq<Grant>)
    ensures Lowest(bound, gs) <= bound && forall i :: 0 <= i < |gs| ==> Lowest(bound, gs) <= |gs[i].after.table.signers|
    ensures Lowest(bound, gs) == bound || exists i :: 0 <= i < |gs| && Lowest(bound, gs) == |gs[i].after.table.signers|
  {
    if gs != [] {
      LowestIsMinimum(bound, gs[..|gs| - 1]);
    }
  }

  /** Each change finds the quorum the one before it left; the first one finds `q`. */
  ghost predicate Chained(gs: seq<Grant>, q: nat) {
    forall i :: 0 <= i < |gs| ==> ChainedAt(gs, i, q)
  }

  ghost predicate ChainedAt(gs: seq<Grant>, i: nat, q: nat)
    requires i < |gs|
  {
    gs[i].before.quorum == QuorumAfter(gs, i, q)
  }

  /** The quorum after the first n changes. */
  function QuorumAfter(gs: seq<Grant>, n: nat, q: nat): nat
    requires n <= |gs|
  {
    if n == 0 then q else gs[n - 1].after.quorum
  }

  function LastQuorum(gs: seq<Grant>, q: nat): nat {
    QuorumAfter(gs, |gs|, q)
  }

  lemma ChainedConcat(a: seq<Grant>, b: seq<Grant>, q: nat)
    requires Chained(a, q) && Chained(b, LastQuorum(a, q))
    ensures Chained(a + b, q) && LastQuorum(a + b, q) == LastQuorum(b, LastQuorum(a, q))
  {
    forall i | 0 <= i < |a + b| ensures ChainedAt(a + b, i, q) {
      if i < |a| {
        assert ChainedAt(a, i, q);
      } else {
        assert ChainedAt(b, i - |a|, LastQuorum(a, q));
      }
    }
  }

  lemma {:induction false} GrantsChained(c: Crypto, s: State, now: Timestamp, calls: seq<AdminTx>)
    ensures Chained(Grants(c, s, now, calls), s.quorum)
    ensures Callback(c, s, now, calls).quorum == LastQuorum(Grants(c, s, now, calls), s.quorum)
    decreases |calls|
  {
    if calls != [] {
      match ExecAdmin(c, s, calls[0].sender, now, calls[0].op)
      case Ok(s') =>
        GrantsChained(c, s', now, calls[1..]);
        ChainedConcat([Grant(s, calls[0].sender, now, calls[0].op, s')], Grants(c, s', now, calls[1..]), s.quorum);
      case Revert(_) =>
        GrantsChained(c, s, now, calls[1..]);
    }
  }

  lemma StepChained(c: Crypto, r: Run, ledger: seq<seq<Grant>>, i: nat)
    requires IsRun(c, r) && Recorded(c, r, ledger) && i < |r.txs|
    ensures Chained(ledger[i], r.states[i].quorum)
    ensures r.states[i + 1].quorum == LastQuorum(ledger[i], r.states[i].quorum)
  {
    var s, tx := r.states[i], r.txs[i];
    StepAt(c, r, i);
    assert RecordedAt(c, r, ledger, i);
    ReentryExact(c, s, tx);
    GrantsChained(c, Reentry(c, s, tx).0, tx.now, Reentry(c, s, tx).1);
  }

  /** The quorum moves through the history of changes and in no other way. */
  lemma {:induction false} HistoryChained(c: Crypto, r: Run, ledger: seq<seq<Grant>>, n: nat)
    requires IsRun(c, r) && Recorded(c, r, ledger) && n <= |r.txs|
    ensures Chained(History(ledger, n), r.states[0].quorum)
    ensures r.states[n].quorum == LastQuorum(History(ledger, n), r.states[0].quorum)
  {
    if n > 0 {
      var q, earlier := r.states[0].quorum, History(ledger, n - 1);
      HistoryChained(c, r, ledger, n - 1);
      assert Chained(ledger[n - 1], LastQuorum(earlier, q)) &&
        r.states[n].quorum == LastQuorum(ledger[n - 1], LastQuorum(earlier, q)) by {
        StepChained(c, r, ledger, n - 1);
      }
      ChainedConcat(earlier, ledger[n - 1], q);
    }
  }

  lemma GrantFloor(c: Crypto, g: Grant)
    requires Granted(c, g)
    ensures g.after.quorum >= g.before.quorum || g.after.quorum >= |g.after.table.signers|
  {
    AdminExact(c, g.before, g.sender, g.now, g.op);
  }

  lemma LowestSnoc(bound: nat, gs: seq<Grant>, n: nat)
    requires n < |gs|
    ensures var low, count := Lowest(bound, gs[..n]), |gs[n].after.table.signers|;
      Lowest(bound, gs[..n + 1]) == if count < low then count else low
  {
    assert gs[..n + 1][..n] == gs[..n];
  }

  ghost predicate AllGranted(c: Crypto, gs: seq<Grant>) {
    forall i :: 0 <= i < |gs| ==> Granted(c, gs[i])
  }

  lemma {:induction false} FloorAfter(c: Crypto, gs: seq<Grant>, q: nat, n: nat)
    requires Chained(gs, q) && n <= |gs| && AllGranted(c, gs)
    ensures QuorumAfter(gs, n, q) >= Lowest(q, gs[..n])
    decreases n
  {
    if n > 0 {
      FloorAfter(c, gs, q, n - 1);
      assert ChainedAt(gs, n - 1, q);
      GrantFloor(c, gs[n - 1]);
      LowestSnoc(q, gs, n - 1);
    }
  }

  lemma FloorEverywhere(c: Crypto, gs: seq<Grant>, q: nat)
    requires Chained(gs, q) && AllGranted(c, gs)
    ensures LastQuorum(gs, q) >= Lowest(q, gs)
    ensures forall i :: 0 <= i < |gs| ==> gs[i].after.quorum >= Lowest(q, gs[..i + 1])
  {
    forall i | 0 <= i < |gs| ensures gs[i].after.quorum >= Lowest(q, gs[..i + 1]) {
      FloorAfter(c, gs, q, i + 1);
    }
    FloorAfter(c, gs, q, |gs|);
    assert gs[..|gs|] == gs;
  }

  lemma HistoryGranted(c: Crypto, r: Run, ledger: seq<seq<Grant>>, n: nat)
    requires IsRun(c, r) && Recorded(c, r, ledger) && n <= |r.txs|
    ensures AllGranted(c, History(ledger, n))
  {
    forall i | 0 <= i < |History(ledger, n)| ensures Granted(c, History(ledger, n)[i]) {
      HistoryNumbered(c, r, ledger, n, i);
    }
  }

  /** Quorum floor: between transactions and right after every signer change, also one inside a payout, the quorum
      is at least the minimum of the initial quorum and the smallest signer count seen so far. */
  lemma QuorumFloor(c: Crypto, r: Run, ledger: seq<seq<Grant>>, n: nat)
    requires IsRun(c, r) && Recorded(c, r, ledger) && n <= |r.txs|
    ensures var h, q := History(ledger, n), r.states[0].quorum;
      && r.states[n].quorum >= Lowest(q, h)
      && forall i :: 0 <= i < |h| ==> h[i].after.quorum >= Lowest(q, h[..i + 1])
  {
    HistoryChained(c, r, ledger, n);
    HistoryGranted(c, r, ledger, n);
    FloorEverywhere(c, History(ledger, n), r.states[0].quorum);
  }
}
