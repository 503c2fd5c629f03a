/** The quorum floor counted between transactions only: exactly when it holds, a condition on the calls under which it
    does, and a run in which it does not. */
module QuorumFloors {
  import opened Evm
  import opened Encoding
  import opened SignerTable
  import opened QuorumSpec
  import opened QuorumRuns
  import opened QuorumAdmin

  function Min(a: nat, b: nat): nat {
    if b < a then b else a
  }

  /** The smallest of the initial quorum and the signer counts in the states up to n. */
  function LowestSeen(r: Run, n: nat): nat
    requires n < |r.states|
  {
    Min(if n == 0 then r.states[0].quorum else LowestSeen(r, n - 1), |r.states[n].table.signers|)
  }

  lemma {:induction false} LowestSeenIsMinimum(r: Run, n: nat)
    requires n < |r.states|
    ensures LowestSeen(r, n) <= r.states[0].quorum
    ensures forall k :: 0 <= k <= n ==> LowestSeen(r, n) <= |r.states[k].table.signers|
    ensures LowestSeen(r, n) == r.states[0].quorum
         || exists k :: 0 <= k <= n && LowestSeen(r, n) == |r.states[k].table.signers|
  {
    if n > 0 {
      LowestSeenIsMinimum(r, n - 1);
    }
  }

  /** In every state up to n the quorum is at least what had been the lowest by then. */
  ghost predicate FloorHolds(r: Run, n: nat)
    requires n < |r.states|
  {
    forall k :: 0 <= k <= n ==> FloorAt(r, k)
  }

  ghost predicate FloorAt(r: Run, k: nat)
    requires k < |r.states|
  {
    r.states[k].quorum >= LowestSeen(r, k)
  }

  // ---- exactly when ----

  /** The last signer change of transaction i, if there is one, asked for a quorum no lower than that. */
  ghost predicate LastAsksEnough(r: Run, ledger: seq<seq<Grant>>, i: nat)
    requires i < |ledger| && i + 1 < |r.states|
  {
    ledger[i] != [] ==> ledger[i][|ledger[i]| - 1].op.newQuorum >= LowestSeen(r, i + 1)
  }

  lemma {:induction false} NothingGranted(c: Crypto, s: State, now: Timestamp, calls: seq<AdminTx>)
    requires Grants(c, s, now, calls) == []
    ensures Callback(c, s, now, calls) == s
    decreases |calls|
  {
    if calls != [] {
      NothingGranted(c, s, now, calls[1..]);
    }
  }

  lemma QuietStep(c: Crypto, r: Run, ledger: seq<seq<Grant>>, i: nat)
    requires IsRun(c, r) && Recorded(c, r, ledger) && i < |r.txs| && ledger[i] == []
    ensures r.states[i + 1].quorum == r.states[i].quorum && r.states[i + 1].table == r.states[i].table
  {
    var s, tx := r.states[i], r.txs[i];
    StepAt(c, r, i);
    assert RecordedAt(c, r, ledger, i);
    ReentryExact(c, s, tx);
    NothingGranted(c, Reentry(c, s, tx).0, tx.now, Reentry(c, s, tx).1);
  }

  lemma GrantAsked(c: Crypto, g: Grant)
    requires Granted(c, g)
    ensures g.after.quorum == g.op.newQuorum
  {
  }

  /** After a transaction with signer changes the quorum is what the last of them asked for. */
  lemma LastChangeStays(c: Crypto, r: Run, ledger: seq<seq<Grant>>, i: nat)
    requires IsRun(c, r) && Recorded(c, r, ledger) && i < |r.txs| && ledger[i] != []
    ensures r.states[i + 1].quorum == ledger[i][|ledger[i]| - 1].op.newQuorum
  {
    StepChained(c, r, ledger, i);
    StepNumbered(c, r, ledger, i);
    GrantAsked(c, ledger[i][|ledger[i]| - 1]);
  }

  lemma StepFloorIff(c: Crypto, r: Run, ledger: seq<seq<Grant>>, i: nat)
    requires IsRun(c, r) && Recorded(c, r, ledger) && i < |r.txs| && FloorAt(r, i)
    ensures FloorAt(r, i + 1) <==> LastAsksEnough(r, ledger, i)
  {
    if ledger[i] == [] {
      QuietStep(c, r, ledger, i);
      LowestSeenIsMinimum(r, i);
    } else {
      LastChangeStays(c, r, ledger, i);
    }
  }

  /** The floor between transactions holds exactly if in each transaction that changes signers the last change asks for
      a quorum no lower than the lowest seen between transactions by then. */
  lemma {:induction false} BoundaryFloorIff(c: Crypto, r: Run, ledger: seq<seq<Grant>>, n: nat)
    requires IsRun(c, r) && Recorded(c, r, ledger) && n <= |r.txs|
    ensures FloorHolds(r, n) <==> forall i :: 0 <= i < n ==> LastAsksEnough(r, ledger, i)
  {
    if n > 0 {
      BoundaryFloorIff(c, r, ledger, n - 1);
      assert FloorHolds(r, n) <==> FloorHolds(r, n - 1) && FloorAt(r, n);
      if FloorHolds(r, n - 1) {
        StepFloorIff(c, r, ledger, n - 1);
      }
    }
  }

  // ---- a condition on the calls ----

  /** No addition comes after a removal. */
  ghost predicate AddsFirst(gs: seq<Grant>) {
    forall a, b :: 0 <= a < b < |gs| ==> gs[a].op.kind.Add? || gs[b].op.kind.Remove?
  }

  ghost predicate OnlyRemoves(gs: seq<Grant>) {
    forall i :: 0 <= i < |gs| ==> gs[i].op.kind.Remove?
  }

  lemma {:induction false} RemovesShrink(c: Crypto, s: State, now: Timestamp, calls: seq<AdminTx>)
    requires SignersInv(s) && OnlyRemoves(Grants(c, s, now, calls))
    ensures |Callback(c, s, now, calls).table.signers| <= |s.table.signers|
    decreases |calls|
  {
    if calls != [] {
      match ExecAdmin(c, s, calls[0].sender, now, calls[0].op)
      case Ok(s') =>
        AdminExact(c, s, calls[0].sender, now, calls[0].op);
        var gs, rest := Grants(c, s, now, calls), Grants(c, s', now, calls[1..]);
        assert gs[0].op == calls[0].op && gs[1..] == rest;
        RemovesShrink(c, s', now, calls[1..]);
      case Revert(_) =>
        RemovesShrink(c, s, now, calls[1..]);
    }
  }

  /** When additions come first, the quorum falls no lower than the number of signers at the end. */
  lemma {:induction false} AddsFirstFloor(c: Crypto, s: State, now: Timestamp, calls: seq<AdminTx>)
    requires SignersInv(s) && AddsFirst(Grants(c, s, now, calls))
    ensures var s' := Callback(c, s, now, calls); s'.quorum >= Min(s.quorum, |s'.table.signers|)
    decreases |calls|
  {
    if calls != [] {
      match ExecAdmin(c, s, calls[0].sender, now, calls[0].op)
      case Ok(s') =>
        AdminExact(c, s, calls[0].sender, now, calls[0].op);
        var gs, rest := Grants(c, s, now, calls), Grants(c, s', now, calls[1..]);
        assert gs[0].op == calls[0].op && gs[1..] == rest;
        AddsFirstFloor(c, s', now, calls[1..]);
        if calls[0].op.kind.Remove? {
          RemovesShrink(c, s', now, calls[1..]);
        }
      case Revert(_) =>
        AddsFirstFloor(c, s, now, calls[1..]);
    }
  }

  lemma StepAddsFirst(c: Crypto, r: Run, ledger: seq<seq<Grant>>, i: nat)
    requires IsRun(c, r) && Recorded(c, r, ledger) && i < |r.txs| && AddsFirst(ledger[i])
    ensures r.states[i + 1].quorum >= Min(r.states[i].quorum, |r.states[i + 1].table.signers|)
  {
    var s, tx := r.states[i], r.txs[i];
    StepAt(c, r, i);
    assert RecordedAt(c, r, ledger, i);
    ReentryExact(c, s, tx);
    AddsFirstFloor(c, Reentry(c, s, tx).0, tx.now, Reentry(c, s, tx).1);
  }

  /** The floor between transactions holds in every run in which no transaction adds signers after removing some. */
  lemma {:induction false} BoundaryFloorHolds(c: Crypto, r: Run, ledger: seq<seq<Grant>>, n: nat)
    requires IsRun(c, r) && Recorded(c, r, ledger) && n <= |r.txs|
    requires forall i :: 0 <= i < n ==> AddsFirst(ledger[i])
    ensures FloorHolds(r, n)
  {
    if n > 0 {
      BoundaryFloorHolds(c, r, ledger, n - 1);
      StepAddsFirst(c, r, ledger, n - 1);
      assert FloorAt(r, n - 1);
    }
  }

  // ---- a run ----

  // A run of one transaction: signers 1 and 2 with quorum 2, and a deposit during which the token calls back and
  // signer 1 removes signer 2, co-signed by 2, and then, alone, adds 2 again.

  function DipRemoval(signature: seq<byte>): AdminOp {
    AdminOp(Remove, [2], 1, 5, [signature])
  }

  function DipTx(signature: seq<byte>): Tx {
    Tx(3, 1, Deposit(5, 10, 0,
                     External([AdminTx(1, DipRemoval(signature)), AdminTx(1, AdminOp(Add, [2], 1, 5, []))], true)))
  }

  function DipState(signers: seq<Address>, quorum: Uint64, nonce: Word, balances: map<Address, nat>): State {
    State(Table(signers, Elems(signers)), quorum, nonce, map[], map[], balances)
  }

  lemma DipOut(c: Crypto, signature: seq<byte>, b: map<Address, nat>)
    requires c.recover(Digest(c, DipRemoval(signature), 0), signature) == Some(2)
    ensures ExecAdmin(c, DipState([1, 2], 2, 0, b), 1, 1, DipRemoval(signature)) == Ok(DipState([1], 1, 1, b))
  {
    var xs, batch: seq<Address> := [1, 2], [2];
    assert 1 in xs && 2 in xs && xs[1..][0] == 2 && IndexOf(xs, 2) == 1;
    assert SwapPop(xs, 2) == [1] && batch[1..] == [] && Elems(xs) - {2} == Elems([1]);
    assert RemoveAll(Table(xs, Elems(xs)), batch) == Ok(Table([1], Elems([1])));
    assert Elems([2]) == {2};
    SignatureLoopExact(c, Elems(xs), 1, Digest(c, DipRemoval(signature), 0), [signature], ZERO, [2]);
  }

  lemma DipBack(c: Crypto, b: map<Address, nat>)
    ensures ExecAdmin(c, DipState([1], 1, 1, b), 1, 1, AdminOp(Add, [2], 1, 5, [])) == Ok(DipState([1, 2], 1, 2, b))
  {
    var xs, batch: seq<Address> := [1], [2];
    assert 1 in xs && batch[1..] == [] && xs + batch == [1, 2] && Elems(xs) + {2} == Elems([1, 2]);
    assert PushAll(Table(xs, Elems(xs)), batch) == Ok(Table([1, 2], Elems([1, 2])));
  }

  lemma DipCallback(c: Crypto, signature: seq<byte>, b: map<Address, nat>)
    requires c.recover(Digest(c, DipRemoval(signature), 0), signature) == Some(2)
    ensures Callback(c, DipState([1, 2], 2, 0, b), 1, DipTx(signature).call.transfer.callback)
      == DipState([1, 2], 1, 2, b)
  {
    var calls := DipTx(signature).call.transfer.callback;
    DipOut(c, signature, b);
    DipBack(c, b);
    CallbackOfOne(c, DipState([1], 1, 1, b), 1, calls[1]);
    assert calls[1..] == [calls[1]];
  }

  lemma DipStep(c: Crypto, signature: seq<byte>)
    requires c.recover(Digest(c, DipRemoval(signature), 0), signature) == Some(2)
    ensures Next(c, DipState([1, 2], 2, 0, map[]), DipTx(signature)) == DipState([1, 2], 1, 2, map[5 := 10])
  {
    assert Credited(DipState([1, 2], 2, 0, map[]), 5, 10) == DipState([1, 2], 2, 0, map[5 := 10]);
    DipCallback(c, signature, map[5 := 10]);
  }

  /** The moments inside transactions do count: in this run there are two signers and quorum 2 at first, two signers
      after every transaction, and the quorum ends at 1. */
  lemma BoundaryFloorFails(c: Crypto, signature: seq<byte>) returns (r: Run)
    requires c.self != 3 && c.recover(Digest(c, DipRemoval(signature), 0), signature) == Some(2)
    ensures IsRun(c, r) && |r.states| == 2 && r.states[0].quorum == 2 && r.states[1].quorum == 1
    ensures |r.states[0].table.signers| == |r.states[1].table.signers| == 2 && !FloorHolds(r, 1)
  {
    r := Run([DipState([1, 2], 2, 0, map[]), DipState([1, 2], 1, 2, map[5 := 10])], [DipTx(signature)]);
    ConstructInv([1, 2], 2);
    assert Construct([1, 2], 2) == Ok(r.states[0]);
    DipStep(c, signature);
    assert Linked(c, r, 0);
    assert LowestSeen(r, 0) == 2 && !FloorAt(r, 1);
  }
}
