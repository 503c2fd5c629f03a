/** A run in which re-adding a removed signer revives an approval, for any hash and any signatures that the
    co-signer of the two changes made. Signers 1, 2, 3 with quorum 2: signer 1 starts a withdrawal, 2 approves
    it and is removed, 3 approves it, and 2 comes back. */
module QuorumRevival {
  import opened Evm
  import opened Encoding
  import opened SignerTable
  import opened QuorumSpec
  import opened QuorumRuns
  import opened QuorumThreshold

  function Change(kind: AdminKind, signature: seq<byte>): AdminOp {
    AdminOp(kind, [2], 2, 5, [signature])
  }

  /** Signer 3 has signed the removal for nonce 0 and the addition for nonce 1. */
  ghost predicate CoSigned(c: Crypto, removal: seq<byte>, addition: seq<byte>) {
    && c.recover(Digest(c, Change(Remove, removal), 0), removal) == Some(3)
    && c.recover(Digest(c, Change(Add, addition), 1), addition) == Some(3)
  }

  function DemoId(c: Crypto, user: Address): Word {
    WithdrawalId(c, user, ZERO, 4, 0)
  }

  function DemoTxs(c: Crypto, user: Address, removal: seq<byte>, addition: seq<byte>): seq<Tx> {
    [Tx(1, 1, StartWithdraw(user, ZERO, 4, 0)),
     Tx(2, 1, FinalizeWithdraw(DemoId(c, user), External([], true))),
     Tx(1, 1, Admin(Change(Remove, removal))),
     Tx(3, 1, FinalizeWithdraw(DemoId(c, user), External([], true))),
     Tx(1, 1, Admin(Change(Add, addition)))]
  }

  /** The storage under these signers with this nonce, the withdrawal pending with these approvals. */
  function DemoState(id: Word, user: Address, signers: seq<Address>, nonce: Word, approvers: set<Address>): State {
    State(Table(signers, Elems(signers)), 2, nonce, map[id := Request(user, ZERO, 4, false, 1, 2)],
          if approvers == {} then map[] else map[id := approvers], map[])
  }

  function DemoStates(id: Word, user: Address): seq<State> {
    [DemoGenesis(), DemoState(id, user, [1, 2, 3], 0, {}), DemoState(id, user, [1, 2, 3], 0, {2}),
     DemoState(id, user, [1, 3], 1, {2}), DemoState(id, user, [1, 3], 1, {2, 3}),
     DemoState(id, user, [1, 3, 2], 2, {2, 3})]
  }

  function DemoGenesis(): State {
    State(Table([1, 2, 3], Elems([1, 2, 3])), 2, 0, map[], map[], map[])
  }

  lemma DemoSignature(c: Crypto, isSigner: set<Address>, digest: Word, signature: seq<byte>)
    requires 3 in isSigner && c.recover(digest, signature) == Some(3)
    ensures VerifySignatures(c, isSigner, 2, 1, digest, [signature]).None?
  {
    SignatureLoopExact(c, isSigner, 1, digest, [signature], ZERO, [3]);
    assert Elems([3]) == {3};
  }

  lemma DemoStart(c: Crypto, user: Address)
    requires user != ZERO
    ensures Next(c, DemoGenesis(), Tx(1, 1, StartWithdraw(user, ZERO, 4, 0)))
         == DemoState(DemoId(c, user), user, [1, 2, 3], 0, {})
  {
    assert 1 in [1, 2, 3];
  }

  /** An approval by a signer while no other approval counts. */
  lemma DemoApproval(c: Crypto, id: Word, user: Address, signers: seq<Address>, nonce: Word,
                     approvers: set<Address>, sender: Address)
    requires sender in signers && sender !in approvers && Elems(signers) * approvers == {}
    ensures Next(c, DemoState(id, user, signers, nonce, approvers),
                 Tx(sender, 1, FinalizeWithdraw(id, External([], true))))
         == DemoState(id, user, signers, nonce, approvers + {sender})
  {
    var s := DemoState(id, user, signers, nonce, approvers);
    assert Approvers(s, id) == approvers;
    assert ValidApprovers(Approved(s, sender, id), id) == {sender};
  }

  lemma DemoTables()
    ensures RemoveAll(Table([1, 2, 3], Elems([1, 2, 3])), [2]) == Ok(Table([1, 3], Elems([1, 3])))
    ensures PushAll(Table([1, 3], Elems([1, 3])), [2]) == Ok(Table([1, 3, 2], Elems([1, 3, 2])))
  {
    var xs, batch: seq<Address> := [1, 2, 3], [2];
    assert xs[1..][0] == 2 && IndexOf(xs, 2) == 1;
    assert SwapPop(xs, 2) == [1, 3] && batch[1..] == [];
    assert Elems(xs) - {2} == Elems([1, 3]) && 2 in xs;
    assert Elems([1, 3]) + {2} == Elems([1, 3, 2]) && [1, 3] + [2] == [1, 3, 2];
  }

  lemma DemoRemoval(c: Crypto, id: Word, user: Address, removal: seq<byte>)
    requires c.recover(Digest(c, Change(Remove, removal), 0), removal) == Some(3)
    ensures Next(c, DemoState(id, user, [1, 2, 3], 0, {2}), Tx(1, 1, Admin(Change(Remove, removal))))
         == DemoState(id, user, [1, 3], 1, {2})
  {
    assert 1 in [1, 2, 3] && 3 in [1, 2, 3];
    DemoTables();
    DemoSignature(c, Elems([1, 2, 3]), Digest(c, Change(Remove, removal), 0), removal);
  }

  lemma DemoReturn(c: Crypto, id: Word, user: Address, addition: seq<byte>)
    requires c.recover(Digest(c, Change(Add, addition), 1), addition) == Some(3)
    ensures Next(c, DemoState(id, user, [1, 3], 1, {2, 3}), Tx(1, 1, Admin(Change(Add, addition))))
         == DemoState(id, user, [1, 3, 2], 2, {2, 3})
  {
    assert 1 in [1, 3] && 3 in [1, 3];
    DemoTables();
    DemoSignature(c, Elems([1, 3]), Digest(c, Change(Add, addition), 1), addition);
  }

  function DemoRun(c: Crypto, user: Address, removal: seq<byte>, addition: seq<byte>): Run {
    Run(DemoStates(DemoId(c, user), user), DemoTxs(c, user, removal, addition))
  }

  lemma DemoEarly(c: Crypto, user: Address, removal: seq<byte>, addition: seq<byte>, i: nat)
    requires user != ZERO && CoSigned(c, removal, addition) && i < 3
    ensures Linked(c, DemoRun(c, user, removal, addition), i)
  {
    var id := DemoId(c, user);
    if i == 0 {
      DemoStart(c, user);
    } else if i == 1 {
      assert 2 in [1, 2, 3] && Elems([1, 2, 3]) * {} == {} && {} + {2} == {2};
      DemoApproval(c, id, user, [1, 2, 3], 0, {}, 2);
    } else {
      DemoRemoval(c, id, user, removal);
    }
  }

  lemma DemoLate(c: Crypto, user: Address, removal: seq<byte>, addition: seq<byte>, i: nat)
    requires user != ZERO && CoSigned(c, removal, addition) && 3 <= i < 5
    ensures Linked(c, DemoRun(c, user, removal, addition), i)
  {
    var id := DemoId(c, user);
    if i == 3 {
      assert 3 in [1, 3] && 2 !in [1, 3] && Elems([1, 3]) * {2} == {} && {2} + {3} == {2, 3};
      DemoApproval(c, id, user, [1, 3], 1, {2}, 3);
    } else {
      DemoReturn(c, id, user, addition);
    }
  }

  lemma DemoLinked(c: Crypto, user: Address, removal: seq<byte>, addition: seq<byte>, r: Run)
    requires user != ZERO && CoSigned(c, removal, addition) && r == DemoRun(c, user, removal, addition)
    ensures forall i :: 0 <= i < |r.txs| ==> Linked(c, r, i)
  {
    forall i | 0 <= i < |r.txs| ensures Linked(c, r, i) {
      if i < 3 { DemoEarly(c, user, removal, addition, i); } else { DemoLate(c, user, removal, addition, i); }
    }
  }

  lemma DemoBegins(c: Crypto, user: Address, removal: seq<byte>, addition: seq<byte>, r: Run)
    requires c.self !in {1, 2, 3} && r == DemoRun(c, user, removal, addition)
    ensures |r.states| == |r.txs| + 1 && exists initial, q :: Construct(initial, q) == Ok(r.states[0])
    ensures forall i :: 0 <= i < |r.txs| ==> r.txs[i].now == 1 && r.txs[i].sender != c.self
  {
    ConstructInv([1, 2, 3], 2);
    assert Construct([1, 2, 3], 2) == Ok(DemoGenesis());
  }

  /** Whatever the hash and whoever is to be paid: once signer 3 has co-signed the two changes there is a run in
      which a withdrawal that needs two approvals is left pending with two that count. */
  lemma RevivalReachesThreshold(c: Crypto, user: Address, removal: seq<byte>, addition: seq<byte>) returns (r: Run)
    requires user != ZERO && c.self !in {1, 2, 3} && CoSigned(c, removal, addition)
    ensures IsRun(c, r) && !BelowThreshold(r.states[|r.txs|])
    ensures var s, id := r.states[|r.txs|], WithdrawalId(c, user, ZERO, 4, 0);
      StatusOf(s, id) == Pending && |ValidApprovers(s, id)| == s.withdrawals[id].requiredQuorum == 2
  {
    var id := DemoId(c, user);
    r := DemoRun(c, user, removal, addition);
    DemoBegins(c, user, removal, addition, r);
    DemoLinked(c, user, removal, addition, r);
    var s := r.states[5];
    assert 2 in [1, 3, 2] && 3 in [1, 3, 2];
    assert StatusOf(s, id) == Pending && ValidApprovers(s, id) == {2, 3};
  }
}
