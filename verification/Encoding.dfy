/** The byte strings the contracts hash, and why different operations give different byte strings. */
module Encoding {
  import opened Evm

  function Pow256(width: nat): (p: nat)
    ensures p > 0
  {
    if width == 0 then 1 else 256 * Pow256(width - 1)
  }

  function BigEndian(n: nat, width: nat): (bytes: seq<byte>)
    ensures |bytes| == width
  {
    if width == 0 then [] else BigEndian(n / 256, width - 1) + [(n % 256) as byte]
  }

  lemma {:induction false} BigEndianInjective(a: nat, b: nat, width: nat)
    requires a < Pow256(width) && b < Pow256(width)
    requires BigEndian(a, width) == BigEndian(b, width)
    ensures a == b
  {
    if width > 0 {
      var xs, ys := BigEndian(a / 256, width - 1), BigEndian(b / 256, width - 1);
      assert BigEndian(a, width)[..width - 1] == xs && BigEndian(b, width)[..width - 1] == ys;
      assert BigEndian(a, width)[width - 1] == BigEndian(b, width)[width - 1];
      BigEndianInjective(a / 256, b / 256, width - 1);
    }
  }

  lemma WordWidth()
    ensures Pow256(32) == WORD_LIMIT
  {
    assert Pow256(8) == 0x1_0000000000000000;
    assert Pow256(16) == 0x1_0000000000000000_0000000000000000;
    assert Pow256(24) == 0x1_0000000000000000_0000000000000000_0000000000000000;
  }

  /** One 32-byte ABI word. */
  function EncodeWord(n: Word): (bytes: seq<byte>)
    ensures |bytes| == 32
  {
    BigEndian(n, 32)
  }

  /** Concatenated words: `abi.encode` of static values, and `abi.encodePacked` of a bytes32 array. */
  function EncodeWords(words: seq<Word>): (bytes: seq<byte>)
    ensures |bytes| == 32 * |words|
  {
    if words == [] then [] else EncodeWord(words[0]) + EncodeWords(words[1..])
  }

  lemma {:induction false} EncodeWordsInjective(a: seq<Word>, b: seq<Word>)
    requires EncodeWords(a) == EncodeWords(b)
    ensures a == b
  {
    if a != [] {
      assert b != [];
      assert EncodeWords(a)[..32] == EncodeWord(a[0]) && EncodeWords(a)[32..] == EncodeWords(a[1..]);
      assert EncodeWords(b)[..32] == EncodeWord(b[0]) && EncodeWords(b)[32..] == EncodeWords(b[1..]);
      WordWidth();
      BigEndianInjective(a[0], b[0], 32);
      EncodeWordsInjective(a[1..], b[1..]);
      assert a == [a[0]] + a[1..] && b == [b[0]] + b[1..];
    }
  }

  function Ascii(s: string): (bytes: seq<byte>)
    ensures |bytes| == |s|
  {
    seq(|s|, i requires 0 <= i < |s| => (s[i] as int % 256) as byte)
  }

  datatype AdminKind = Add | Remove

  /** An `addSigners` or `removeSigners` request: everything the co-signers authorise except the nonce,
      with the signatures that came along. */
  datatype AdminOp = AdminOp(
    kind: AdminKind, addrs: seq<Address>, newQuorum: Uint64, deadline: Word, signatures: seq<seq<byte>>)

  const ADD_SIGNERS_TYPE := "AddSigners(address[] newSigners,uint256 newQuorum,uint256 nonce,uint256 deadline)"
  const REMOVE_SIGNERS_TYPE :=
    "RemoveSigners(address[] signersToRemove,uint256 newQuorum,uint256 nonce,uint256 deadline)"

  function TypeString(kind: AdminKind): seq<byte> {
    match kind
    case Add => Ascii(ADD_SIGNERS_TYPE)
    case Remove => Ascii(REMOVE_SIGNERS_TYPE)
  }

  function AddressWords(addrs: seq<Address>): (words: seq<Word>)
    ensures |words| == |addrs|
    ensures forall i :: 0 <= i < |addrs| ==> words[i] == addrs[i]
  {
    seq(|addrs|, i requires 0 <= i < |addrs| => addrs[i])
  }

  /** The bytes hashed for the struct: type hash, hash of the address array, quorum, nonce, deadline. */
  function StructBytes(c: Crypto, op: AdminOp, nonce: Word): seq<byte> {
    EncodeWords([c.keccak(TypeString(op.kind)), c.keccak(EncodeWords(AddressWords(op.addrs))),
                 op.newQuorum, nonce, op.deadline])
  }

  function StructHash(c: Crypto, op: AdminOp, nonce: Word): Word {
    c.keccak(StructBytes(c, op, nonce))
  }

  /** The bytes hashed for the EIP-712 digest that co-signers sign. */
  function DigestBytes(c: Crypto, structHash: Word): seq<byte> {
    [0x19, 0x01] + EncodeWords([c.domainSeparator, structHash])
  }

  function Digest(c: Crypto, op: AdminOp, nonce: Word): Word {
    c.keccak(DigestBytes(c, StructHash(c, op, nonce)))
  }

  /** Every byte string hashed on the way to one digest. */
  function HashedMessages(c: Crypto, op: AdminOp, nonce: Word): set<seq<byte>> {
    {TypeString(op.kind), EncodeWords(AddressWords(op.addrs)), StructBytes(c, op, nonce),
     DigestBytes(c, StructHash(c, op, nonce))}
  }

  ghost predicate CollisionFreeOn(c: Crypto, messages: set<seq<byte>>) {
    forall x, y :: x in messages && y in messages && c.keccak(x) == c.keccak(y) ==> x == y
  }

  /** Two requests (with their nonces) authorise the same thing. */
  ghost predicate SameRequest(a: AdminOp, m: Word, b: AdminOp, n: Word) {
    a.kind == b.kind && a.addrs == b.addrs && a.newQuorum == b.newQuorum && a.deadline == b.deadline && m == n
  }

  lemma TypeStringInjective(a: AdminKind, b: AdminKind)
    requires TypeString(a) == TypeString(b)
    ensures a == b
  {
    assert |ADD_SIGNERS_TYPE| == 81 && |REMOVE_SIGNERS_TYPE| == 89;
  }

  /** EIP-712 encodeData is injective on these structs: without a hash collision among the messages
      involved, equal digests mean the same operation, addresses, quorum, nonce and deadline. */
  lemma DigestInjective(c: Crypto, a: AdminOp, m: Word, b: AdminOp, n: Word)
    requires CollisionFreeOn(c, HashedMessages(c, a, m) + HashedMessages(c, b, n))
    ensures Digest(c, a, m) == Digest(c, b, n) <==> SameRequest(a, m, b, n)
  {
    if Digest(c, a, m) == Digest(c, b, n) {
      var da, db := DigestBytes(c, StructHash(c, a, m)), DigestBytes(c, StructHash(c, b, n));
      assert da[2..] == EncodeWords([c.domainSeparator, StructHash(c, a, m)]);
      assert db[2..] == EncodeWords([c.domainSeparator, StructHash(c, b, n)]);
      EncodeWordsInjective([c.domainSeparator, StructHash(c, a, m)], [c.domainSeparator, StructHash(c, b, n)]);
      assert StructHash(c, a, m) == StructHash(c, b, n);
      StructHashInjective(c, a, m, b, n);
    }
  }

  lemma StructHashInjective(c: Crypto, a: AdminOp, m: Word, b: AdminOp, n: Word)
    requires CollisionFreeOn(c, HashedMessages(c, a, m) + HashedMessages(c, b, n))
    requires StructHash(c, a, m) == StructHash(c, b, n)
    ensures SameRequest(a, m, b, n)
  {
    var wa := [c.keccak(TypeString(a.kind)), c.keccak(EncodeWords(AddressWords(a.addrs))), a.newQuorum, m, a.deadline];
    var wb := [c.keccak(TypeString(b.kind)), c.keccak(EncodeWords(AddressWords(b.addrs))), b.newQuorum, n, b.deadline];
    assert StructBytes(c, a, m) == StructBytes(c, b, n);
    EncodeWordsInjective(wa, wb);
    assert wa[0] == wb[0] && wa[1] == wb[1] && wa[2] == wb[2] && wa[3] == wb[3] && wa[4] == wb[4];
    TypeStringInjective(a.kind, b.kind);
    EncodeWordsInjective(AddressWords(a.addrs), AddressWords(b.addrs));
    assert forall i :: 0 <= i < |a.addrs| ==> a.addrs[i] == AddressWords(a.addrs)[i] == AddressWords(b.addrs)[i];
  }

  /** The id of a withdrawal: the hash of chain id, contract, recipient, token, amount and nonce. */
  function IdBytes(c: Crypto, user: Address, token: Address, amount: Word, nonce: Word): seq<byte> {
    EncodeWords([c.chainId, c.self, user, token, amount, nonce])
  }

  function WithdrawalId(c: Crypto, user: Address, token: Address, amount: Word, nonce: Word): Word {
    c.keccak(IdBytes(c, user, token, amount, nonce))
  }

  /** Without a collision, a withdrawal id determines the recipient, token, amount and nonce. */
  lemma WithdrawalIdInjective(c: Crypto, u: Address, t: Address, a: Word, n: Word, u': Address, t': Address, a': Word,
                              n': Word)
    requires CollisionFreeOn(c, {IdBytes(c, u, t, a, n), IdBytes(c, u', t', a', n')})
    requires WithdrawalId(c, u, t, a, n) == WithdrawalId(c, u', t', a', n')
    ensures u == u' && t == t' && a == a' && n == n'
  {
    var w, w' := [c.chainId, c.self, u, t, a, n], [c.chainId, c.self, u', t', a', n'];
    EncodeWordsInjective(w, w');
    assert w[2] == w'[2] && w[3] == w'[3] && w[4] == w'[4] && w[5] == w'[5];
  }

  // ---- the layout of what is hashed ----

  /** The number that bytes stand for, each weighted by 256 to the power of the number of bytes after it. */
  function Weighted(bytes: seq<byte>): nat {
    if bytes == [] then 0 else bytes[0] as nat * Pow256(|bytes| - 1) + Weighted(bytes[1..])
  }

  lemma {:induction false} WeightedSnoc(bytes: seq<byte>, last: byte)
    ensures Weighted(bytes + [last]) == 256 * Weighted(bytes) + last as nat
  {
    if bytes == [] {
      assert ([] + [last])[1..] == [];
    } else {
      assert (bytes + [last])[1..] == bytes[1..] + [last];
      WeightedSnoc(bytes[1..], last);
      var b, p := bytes[0] as nat, Pow256(|bytes| - 1);
      assert b * (256 * p) == 256 * (b * p);
    }
  }

  lemma {:induction false} BigEndianValue(n: nat, width: nat)
    requires n < Pow256(width)
    ensures Weighted(BigEndian(n, width)) == n
  {
    if width > 0 {
      BigEndianValue(n / 256, width - 1);
      WeightedSnoc(BigEndian(n / 256, width - 1), (n % 256) as byte);
    }
  }

  /** The k-th 32 bytes, as a number. */
  function WordAt(bytes: seq<byte>, k: nat): nat
    requires 32 * (k + 1) <= |bytes|
  {
    Weighted(bytes[32 * k..32 * (k + 1)])
  }

  /** Encoded words are read back at their places. */
  lemma {:induction false} EncodedWordAt(words: seq<Word>, k: nat)
    requires k < |words|
    ensures WordAt(EncodeWords(words), k) == words[k]
  {
    var bytes, rest := EncodeWords(words), EncodeWords(words[1..]);
    if k == 0 {
      assert bytes[0..32] == EncodeWord(words[0]);
      WordWidth();
      BigEndianValue(words[0], 32);
    } else {
      assert bytes[32 * k..32 * (k + 1)] == rest[32 * (k - 1)..32 * k];
      EncodedWordAt(words[1..], k - 1);
    }
  }

  /** A withdrawal id is the hash of six words: chain, contract, recipient, token, amount, nonce. */
  lemma IdLayout(c: Crypto, user: Address, token: Address, amount: Word, nonce: Word)
    ensures exists bytes ::
      && c.keccak(bytes) == WithdrawalId(c, user, token, amount, nonce)
      && |bytes| == 192 && WordAt(bytes, 0) == c.chainId && WordAt(bytes, 1) == c.self && WordAt(bytes, 2) == user
      && WordAt(bytes, 3) == token && WordAt(bytes, 4) == amount && WordAt(bytes, 5) == nonce
  {
    var words := [c.chainId, c.self, user, token, amount, nonce];
    var bytes := IdBytes(c, user, token, amount, nonce);
    EncodedWordAt(words, 0);
    EncodedWordAt(words, 1);
    EncodedWordAt(words, 2);
    EncodedWordAt(words, 3);
    EncodedWordAt(words, 4);
    EncodedWordAt(words, 5);
    assert c.keccak(bytes) == WithdrawalId(c, user, token, amount, nonce) && bytes == EncodeWords(words);
  }

  /** The address array is hashed as one word for each address, in order. */
  lemma ArrayLayout(addrs: seq<Address>, i: nat)
    requires i < |addrs|
    ensures |EncodeWords(AddressWords(addrs))| == 32 * |addrs|
    ensures WordAt(EncodeWords(AddressWords(addrs)), i) == addrs[i]
  {
    EncodedWordAt(AddressWords(addrs), i);
  }

  /** A struct hash is over five words: type hash, array hash, quorum, nonce, deadline. */
  lemma StructLayout(c: Crypto, op: AdminOp, nonce: Word)
    ensures var bytes := StructBytes(c, op, nonce);
      && |bytes| == 160
      && WordAt(bytes, 0) == c.keccak(TypeString(op.kind))
      && WordAt(bytes, 1) == c.keccak(EncodeWords(AddressWords(op.addrs)))
      && WordAt(bytes, 2) == op.newQuorum && WordAt(bytes, 3) == nonce && WordAt(bytes, 4) == op.deadline
  {
    var words := [c.keccak(TypeString(op.kind)), c.keccak(EncodeWords(AddressWords(op.addrs))),
                  op.newQuorum, nonce, op.deadline];
    EncodedWordAt(words, 0);
    EncodedWordAt(words, 1);
    EncodedWordAt(words, 2);
    EncodedWordAt(words, 3);
    EncodedWordAt(words, 4);
  }

  /** The digest is the hash of the two prefix bytes, the domain separator and the struct hash. */
  lemma DigestLayout(c: Crypto, op: AdminOp, nonce: Word)
    ensures exists bytes ::
      && c.keccak(bytes) == Digest(c, op, nonce)
      && |bytes| == 66 && bytes[0] == 0x19 && bytes[1] == 0x01
      && WordAt(bytes[2..], 0) == c.domainSeparator
      && WordAt(bytes[2..], 1) == c.keccak(StructBytes(c, op, nonce))
  {
    var words := [c.domainSeparator, StructHash(c, op, nonce)];
    var bytes := DigestBytes(c, StructHash(c, op, nonce));
    EncodedWordAt(words, 0);
    EncodedWordAt(words, 1);
    assert bytes[2..] == EncodeWords(words);
    assert c.keccak(bytes) == Digest(c, op, nonce);
  }

  /** The type strings are hashed as their characters, which are ASCII. */
  lemma TypeLayout(text: string)
    ensures |Ascii(text)| == |text|
    ensures forall i :: 0 <= i < |text| && text[i] as int < 128 ==> Ascii(text)[i] as int == text[i] as int
    ensures TypeString(Add)
      == Ascii("AddSigners(address[] newSigners,uint256 newQuorum,uint256 nonce,uint256 deadline)")
    ensures TypeString(Remove)
         == Ascii("RemoveSigners(address[] signersToRemove,uint256 newQuorum,uint256 nonce,uint256 deadline)")
  {
  }
}
