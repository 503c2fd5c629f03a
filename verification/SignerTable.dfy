/** The signer array with its membership map, and the co-signature check, as functions:
    what the loops of `QuorumCustody` compute, and what that means for the signer set. */
module SignerTable {
  import opened Evm

  datatype Table = Table(signers: seq<Address>, isSigner: set<Address>)

  function Elems(xs: seq<Address>): set<Address> {
    set x | x in xs
  }

  ghost predicate NoDuplicates(xs: seq<Address>) {
    forall i, j :: 0 <= i < j < |xs| ==> xs[i] != xs[j]
  }

  /** The array lists each member of the map exactly once, and never the zero address. */
  ghost predicate Agrees(t: Table) {
    && NoDuplicates(t.signers)
    && ZERO !in t.signers
    && t.isSigner == Elems(t.signers)
  }

  lemma {:induction false} DistinctCount(xs: seq<Address>)
    requires NoDuplicates(xs)
    ensures |Elems(xs)| == |xs|
  {
    if xs == [] {
      assert Elems(xs) == {};
    } else {
      var n := |xs| - 1;
      DistinctCount(xs[..n]);
      assert xs == xs[..n] + [xs[n]];
      assert Elems(xs) == Elems(xs[..n]) + {xs[n]};
      assert xs[n] !in xs[..n];
    }
  }

  /** One step of a counting loop over a duplicate-free array. */
  lemma CountOneMore(xs: seq<Address>, i: nat, chosen: set<Address>)
    requires NoDuplicates(xs) && i < |xs|
    ensures |Elems(xs[..i + 1]) * chosen| == |Elems(xs[..i]) * chosen| + if xs[i] in chosen then 1 else 0
  {
    var x := xs[i];
    assert x !in xs[..i];
    assert xs[..i + 1] == xs[..i] + [x];
    if x in chosen {
      assert Elems(xs[..i + 1]) * chosen == Elems(xs[..i]) * chosen + {x};
    } else {
      assert Elems(xs[..i + 1]) * chosen == Elems(xs[..i]) * chosen;
    }
  }

  // ---- adding ----

  function PushSigner(t: Table, a: Address): Outcome<Table> {
    if a == ZERO then Revert(InvalidSigner)
    else if a in t.isSigner then Revert(AlreadySigner)
    else Ok(Table(t.signers + [a], t.isSigner + {a}))
  }

  function PushAll(t: Table, batch: seq<Address>): Outcome<Table>
    decreases |batch|
  {
    if batch == [] then Ok(t)
    else
      match PushSigner(t, batch[0])
      case Ok(t') => PushAll(t', batch[1..])
      case Revert(e) => Revert(e)
  }

  /** A batch is accepted exactly when it is duplicate-free, without the zero address and disjoint from
      the current signers; the result is then the array followed by the batch. */
  lemma {:induction false} PushAllExact(t: Table, batch: seq<Address>)
    requires Agrees(t)
    ensures PushAll(t, batch).Ok? <==> NoDuplicates(batch) && ZERO !in batch && t.isSigner !! Elems(batch)
    ensures PushAll(t, batch).Ok? ==>
      PushAll(t, batch).value == Table(t.signers + batch, t.isSigner + Elems(batch)) && Agrees(PushAll(t, batch).value)
    decreases |batch|
  {
    if batch == [] {
      assert Elems(batch) == {};
      assert t.signers + batch == t.signers;
    } else {
      var a, rest := batch[0], batch[1..];
      assert batch == [a] + rest;
      assert Elems(batch) == {a} + Elems(rest);
      if PushSigner(t, a).Ok? {
        var t' := PushSigner(t, a).value;
        assert Elems(t'.signers) == Elems(t.signers) + {a};
        PushAllExact(t', rest);
        assert t'.signers + rest == t.signers + batch;
        assert a in t'.isSigner;
        assert a in rest <==> a in Elems(rest);
        NoDuplicatesCons(a, rest);
      } else {
        assert a in batch && a in Elems(batch);
      }
    }
  }

  lemma NoDuplicatesCons(a: Address, rest: seq<Address>)
    ensures NoDuplicates([a] + rest) <==> NoDuplicates(rest) && a !in rest
  {
    var xs := [a] + rest;
    if NoDuplicates(xs) {
      forall i, j | 0 <= i < j < |rest| ensures rest[i] != rest[j] {
        assert xs[i + 1] == rest[i] && xs[j + 1] == rest[j];
      }
      forall j | 0 <= j < |rest| ensures rest[j] != a {
        assert xs[0] == a && xs[j + 1] == rest[j];
      }
    }
  }

  /** A batch that is refused is refused for its first address that is zero, a signer already, or a repetition. */
  lemma {:induction false} PushAllError(t: Table, batch: seq<Address>) returns (i: nat)
    requires PushAll(t, batch).Revert?
    ensures i < |batch|
    ensures PushAll(t, batch).error == if batch[i] == ZERO then InvalidSigner else AlreadySigner
    ensures batch[i] != ZERO ==> batch[i] in t.isSigner || batch[i] in batch[..i]
    ensures forall k :: 0 <= k < i ==> batch[k] != ZERO && batch[k] !in t.isSigner && batch[k] !in batch[..k]
    decreases |batch|
  {
    if PushSigner(t, batch[0]).Ok? {
      var rest, t' := batch[1..], PushSigner(t, batch[0]).value;
      var k := PushAllError(t', rest);
      i := k + 1;
      assert forall m :: 0 <= m < |rest| ==> rest[m] == batch[m + 1] && batch[..m + 1] == [batch[0]] + rest[..m];
    } else {
      i := 0;
    }
  }

  // ---- removing ----

  /** The first position of an element of the array. */
  function IndexOf(xs: seq<Address>, a: Address): (j: nat)
    requires a in xs
    ensures j < |xs| && xs[j] == a && a !in xs[..j]
  {
    if xs[0] == a then 0
    else
      assert a in xs[1..];
      var j := IndexOf(xs[1..], a);
      assert xs[..j + 1] == [xs[0]] + xs[1..][..j];
      j + 1
  }

  /** Overwrite the first occurrence with the last element and shorten the array; without an occurrence
      the inner search of the source changes nothing. */
  function SwapPop(xs: seq<Address>, a: Address): seq<Address> {
    if a in xs then xs[IndexOf(xs, a) := xs[|xs| - 1]][..|xs| - 1] else xs
  }

  function RemoveSigner(t: Table, a: Address): Outcome<Table> {
    if a !in t.isSigner then Revert(NotASigner)
    else Ok(Table(SwapPop(t.signers, a), t.isSigner - {a}))
  }

  function RemoveAll(t: Table, batch: seq<Address>): Outcome<Table>
    decreases |batch|
  {
    if batch == [] then Ok(t)
    else
      match RemoveSigner(t, batch[0])
      case Ok(t') => RemoveAll(t', batch[1..])
      case Revert(e) => Revert(e)
  }

  /** Swap-and-pop removes exactly the one element, also when it is itself the last. */
  lemma SwapPopExact(xs: seq<Address>, a: Address)
    requires NoDuplicates(xs) && a in xs
    ensures |SwapPop(xs, a)| == |xs| - 1
    ensures NoDuplicates(SwapPop(xs, a))
    ensures Elems(SwapPop(xs, a)) == Elems(xs) - {a}
  {
    var j, n := IndexOf(xs, a), |xs| - 1;
    var ys := SwapPop(xs, a);
    assert forall i :: 0 <= i < n ==> ys[i] == if i == j then xs[n] else xs[i];
    forall x | x in Elems(xs) - {a} ensures x in ys {
      var i :| 0 <= i < |xs| && xs[i] == x;
      assert ys[if i == n then j else i] == x;
    }
  }

  /** The inner search always finds its target, the batch must be pairwise distinct current signers, and
      the outcome is exact set difference with the length reduced by the size of the batch. */
  lemma {:induction false} RemoveAllExact(t: Table, batch: seq<Address>)
    requires Agrees(t)
    ensures RemoveAll(t, batch).Ok? <==> NoDuplicates(batch) && Elems(batch) <= t.isSigner
    ensures RemoveAll(t, batch).Revert? ==> RemoveAll(t, batch).error == NotASigner
    ensures RemoveAll(t, batch).Ok? ==>
      var t' := RemoveAll(t, batch).value;
      Agrees(t') && t'.isSigner == t.isSigner - Elems(batch) && |t'.signers| == |t.signers| - |batch|
    decreases |batch|
  {
    if batch == [] {
      assert Elems(batch) == {};
    } else {
      var a, rest := batch[0], batch[1..];
      assert batch == [a] + rest;
      assert Elems(batch) == {a} + Elems(rest);
      NoDuplicatesCons(a, rest);
      if a in t.isSigner {
        SwapPopExact(t.signers, a);
        var t' := RemoveSigner(t, a).value;
        assert ZERO !in Elems(t'.signers);
        RemoveAllExact(t', rest);
        assert a in rest <==> a in Elems(rest);
      } else {
        assert a in Elems(batch);
      }
    }
  }

  /** A removal that is refused is refused for its first address that is no signer or a repetition. */
  lemma {:induction false} RemoveAllError(t: Table, batch: seq<Address>) returns (i: nat)
    requires RemoveAll(t, batch).Revert?
    ensures i < |batch| && RemoveAll(t, batch).error == NotASigner
    ensures batch[i] !in t.isSigner || batch[i] in batch[..i]
    ensures forall k :: 0 <= k < i ==> batch[k] in t.isSigner && batch[k] !in batch[..k]
    decreases |batch|
  {
    if RemoveSigner(t, batch[0]).Ok? {
      var rest, t' := batch[1..], RemoveSigner(t, batch[0]).value;
      var k := RemoveAllError(t', rest);
      i := k + 1;
      assert forall m :: 0 <= m < |rest| ==> rest[m] == batch[m + 1] && batch[..m + 1] == [batch[0]] + rest[..m];
    } else {
      i := 0;
    }
  }

  // ---- co-signatures ----

  /** The signature loop from one point on: the first violated check, or None. */
  function SignatureLoop(c: Crypto, isSigner: set<Address>, sender: Address, digest: Word,
                         signatures: seq<seq<byte>>, last: Address): Option<Error>
    decreases |signatures|
  {
    if signatures == [] then None
    else
      match c.recover(digest, signatures[0])
      case None => Some(MalformedSignature)
      case Some(recovered) =>
        if recovered <= last then Some(SignaturesNotSorted)
        else if recovered !in isSigner then Some(InvalidSignature)
        else if recovered == sender then Some(SignerIsCaller)
        else SignatureLoop(c, isSigner, sender, digest, signatures[1..], recovered)
  }

  function VerifySignatures(c: Crypto, isSigner: set<Address>, quorum: nat, sender: Address, digest: Word,
                            signatures: seq<seq<byte>>): Option<Error>
  {
    var failure := SignatureLoop(c, isSigner, sender, digest, signatures, ZERO);
    if failure.Some? then failure
    else if 1 + |signatures| < quorum then Some(InsufficientSignatures)
    else None
  }

  ghost predicate Ascending(xs: seq<Address>) {
    forall i, j :: 0 <= i < j < |xs| ==> xs[i] < xs[j]
  }

  /** `signers` are the authors of `signatures` over `digest`, position by position. */
  ghost predicate SignedBy(c: Crypto, digest: Word, signatures: seq<seq<byte>>, authors: seq<Address>) {
    |authors| == |signatures| &&
    forall i :: 0 <= i < |authors| ==> c.recover(digest, signatures[i]) == Some(authors[i])
  }

  /** A list of co-signers the contract asks for: ascending, current signers, not the caller. */
  ghost predicate ProperCoSigners(isSigner: set<Address>, sender: Address, authors: seq<Address>) {
    Ascending(authors) && Elems(authors) <= isSigner && sender !in authors
  }

  lemma {:induction false} SignatureLoopExact(c: Crypto, isSigner: set<Address>, sender: Address, digest: Word,
                                              signatures: seq<seq<byte>>, last: Address, authors: seq<Address>)
    requires SignedBy(c, digest, signatures, authors)
    ensures SignatureLoop(c, isSigner, sender, digest, signatures, last).None? <==>
            ProperCoSigners(isSigner, sender, authors) && (authors == [] || last < authors[0])
  {
    if signatures == [] {
      assert authors == [];
    } else {
      var a, rest := authors[0], authors[1..];
      assert authors == [a] + rest;
      assert Elems(authors) == {a} + Elems(rest);
      assert c.recover(digest, signatures[0]) == Some(a);
      assert SignedBy(c, digest, signatures[1..], rest);
      SignatureLoopExact(c, isSigner, sender, digest, signatures[1..], a, rest);
      AscendingCons(a, rest);
    }
  }

  lemma AscendingCons(a: Address, rest: seq<Address>)
    ensures Ascending([a] + rest) <==> Ascending(rest) && (rest == [] || a < rest[0])
  {
    var xs := [a] + rest;
    if Ascending(xs) {
      forall i, j | 0 <= i < j < |rest| ensures rest[i] < rest[j] {
        assert xs[i + 1] == rest[i] && xs[j + 1] == rest[j];
      }
      assert rest != [] ==> xs[0] < xs[1] == rest[0];
    }
  }

  lemma {:induction false} SignatureLoopRecovers(c: Crypto, isSigner: set<Address>, sender: Address, digest: Word,
                                                 signatures: seq<seq<byte>>, last: Address)
    returns (authors: seq<Address>)
    requires SignatureLoop(c, isSigner, sender, digest, signatures, last).None?
    ensures SignedBy(c, digest, signatures, authors)
  {
    authors := [];
    if signatures != [] {
      var a := c.recover(digest, signatures[0]).value;
      var rest := SignatureLoopRecovers(c, isSigner, sender, digest, signatures[1..], a);
      authors := [a] + rest;
      forall i | 0 <= i < |authors| ensures c.recover(digest, signatures[i]) == Some(authors[i]) {
        assert i > 0 ==> signatures[i] == signatures[1..][i - 1] && authors[i] == rest[i - 1];
      }
    }
  }

  /** The author of the i-th signature, if it has one, comes after that of the one before it; the first, after `last`.
      */
  predicate AscendsAt(c: Crypto, digest: Word, signatures: seq<seq<byte>>, last: Address, i: nat)
    requires i < |signatures|
  {
    && c.recover(digest, signatures[i]).Some?
    && if i == 0 then c.recover(digest, signatures[i]).value > last
       else c.recover(digest, signatures[i - 1]).Some?
            && c.recover(digest, signatures[i]).value > c.recover(digest, signatures[i - 1]).value
  }

  /** The i-th signature passes all checks. */
  predicate PassesAt(c: Crypto, isSigner: set<Address>, sender: Address, digest: Word, signatures: seq<seq<byte>>,
                     last: Address, i: nat)
    requires i < |signatures|
  {
    && AscendsAt(c, digest, signatures, last, i)
    && c.recover(digest, signatures[i]).value in isSigner
    && c.recover(digest, signatures[i]).value != sender
  }

  /** The i-th signature is the first not to pass, and this is the first check it fails. */
  ghost predicate FirstObjection(c: Crypto, isSigner: set<Address>, sender: Address, digest: Word,
                                 signatures: seq<seq<byte>>, last: Address, i: nat, error: Error)
    requires i < |signatures|
  {
    var author := c.recover(digest, signatures[i]);
    && (forall k :: 0 <= k < i ==> PassesAt(c, isSigner, sender, digest, signatures, last, k))
    && match error
       case MalformedSignature => author.None?
       case SignaturesNotSorted => author.Some? && !AscendsAt(c, digest, signatures, last, i)
       case InvalidSignature => AscendsAt(c, digest, signatures, last, i) && author.value !in isSigner
       case SignerIsCaller =>
         AscendsAt(c, digest, signatures, last, i) && author.value in isSigner && author.value == sender
       case _ => false
  }

  /** The loop reports the first signature that does not pass and the first check it fails. */
  lemma {:induction false} SignatureLoopError(c: Crypto, isSigner: set<Address>, sender: Address, digest: Word,
                                              signatures: seq<seq<byte>>, last: Address) returns (i: nat)
    requires SignatureLoop(c, isSigner, sender, digest, signatures, last).Some?
    ensures i < |signatures|
    ensures FirstObjection(c, isSigner, sender, digest, signatures, last, i,
                           SignatureLoop(c, isSigner, sender, digest, signatures, last).value)
    decreases |signatures|
  {
    if PassesAt(c, isSigner, sender, digest, signatures, last, 0) {
      var rest, author := signatures[1..], c.recover(digest, signatures[0]).value;
      var k := SignatureLoopError(c, isSigner, sender, digest, rest, author);
      i := k + 1;
      forall m | 0 <= m <= k
        ensures AscendsAt(c, digest, signatures, last, m + 1) == AscendsAt(c, digest, rest, author, m)
      {
        assert rest[m] == signatures[m + 1] && (m > 0 ==> rest[m - 1] == signatures[m]);
      }
      forall m | 0 <= m < i ensures PassesAt(c, isSigner, sender, digest, signatures, last, m) {
        if m > 0 { assert PassesAt(c, isSigner, sender, digest, rest, author, m - 1); }
      }
    } else {
      i := 0;
    }
  }

  /** Soundness: acceptance names co-signers who, with the caller, are at least `quorum` distinct current
      signers, each having signed this digest. */
  lemma VerifySound(c: Crypto, t: Table, quorum: nat, sender: Address, digest: Word, signatures: seq<seq<byte>>)
    returns (authors: seq<Address>)
    requires sender in t.isSigner
    requires VerifySignatures(c, t.isSigner, quorum, sender, digest, signatures).None?
    ensures SignedBy(c, digest, signatures, authors)
    ensures Elems(authors) + {sender} <= t.isSigner
    ensures |Elems(authors) + {sender}| == |authors| + 1 >= quorum
  {
    authors := SignatureLoopRecovers(c, t.isSigner, sender, digest, signatures, ZERO);
    SignatureLoopExact(c, t.isSigner, sender, digest, signatures, ZERO, authors);
    DistinctCount(authors);
    assert sender !in Elems(authors);
  }

  /** Every finite set of addresses can be listed in strictly ascending order. */
  lemma {:induction false} SortedListing(s: set<Address>) returns (xs: seq<Address>)
    ensures Ascending(xs) && Elems(xs) == s && |xs| == |s|
    decreases |s|
  {
    if s == {} {
      xs := [];
      return;
    }
    var m := Greatest(s);
    var init := SortedListing(s - {m});
    xs := init + [m];
    forall i | 0 <= i < |init| ensures init[i] < m {
      assert init[i] in Elems(init);
    }
    assert Elems(xs) == Elems(init) + {m};
  }

  lemma {:induction false} Greatest(s: set<Address>) returns (m: Address)
    requires s != {}
    ensures m in s && forall x :: x in s ==> x <= m
    decreases |s|
  {
    m :| m in s;
    if s != {m} {
      var m' := Greatest(s - {m});
      assert s == (s - {m}) + {m};
      m := if m' > m then m' else m;
    }
  }

  /** Completeness: any set of at least `quorum` - 1 other current signers who can sign the digest gets the
      request accepted, by presenting their signatures in ascending order. */
  lemma VerifyComplete(c: Crypto, t: Table, quorum: nat, sender: Address, digest: Word,
                       others: set<Address>, signatureOf: map<Address, seq<byte>>)
    returns (signatures: seq<seq<byte>>)
    requires Agrees(t)
    requires others <= t.isSigner - {sender} && |others| + 1 >= quorum
    requires others <= signatureOf.Keys
    requires forall a :: a in others ==> c.recover(digest, signatureOf[a]) == Some(a)
    ensures |signatures| == |others|
    ensures forall sig :: sig in signatures ==> exists a :: a in others && sig == signatureOf[a]
    ensures VerifySignatures(c, t.isSigner, quorum, sender, digest, signatures).None?
  {
    var authors := SortedListing(others);
    assert forall a :: a in authors ==> a in Elems(authors);
    signatures := seq(|authors|, i requires 0 <= i < |authors| => signatureOf[authors[i]]);
    SignatureLoopExact(c, t.isSigner, sender, digest, signatures, ZERO, authors);
    assert authors != [] ==> authors[0] != ZERO;
  }
}
