/** Types shared by both custody contracts: addresses, words, time, outcomes of a transaction, and
    the cryptographic functions, which are parameters of the whole model. */
module Evm {
  newtype byte = n: int | 0 <= n < 256

  const ADDRESS_LIMIT: nat := 0x1_0000000000_0000000000_0000000000_0000000000
  const WORD_LIMIT: nat := 0x1_0000000000000000_0000000000000000_0000000000000000_0000000000000000

  type Address = n: nat | n < ADDRESS_LIMIT
  type Word = n: nat | n < WORD_LIMIT
  type Uint64 = n: nat | n < 0x1_0000000000000000

  /** A block timestamp: positive, and 64 bits wide in the block header. */
  type Timestamp = t: Uint64 | 0 < t witness 1

  /** The zero address; as a token it denotes the chain's native currency. */
  const ZERO: Address := 0

  datatype Option<+T> = None | Some(value: T)

  /** A transaction either takes effect or reverts, and then leaves no trace in the state. */
  datatype Outcome<+T> = Ok(value: T) | Revert(error: Error)

  datatype Error =
    | InvalidSigner | NotSigner | AlreadySigner | InvalidQuorum | NotASigner | CannotRemoveLastSigner
    | InvalidUser | WithdrawalExpired | SignerAlreadyApproved | WithdrawalNotExpired
    | InvalidSignature | SignaturesNotSorted | InsufficientSignatures | EmptySignersArray
    | SignerIsCaller | DeadlineExpired | MalformedSignature
    | ZeroAmount | WithdrawalAlreadyExists | WithdrawalNotFound | WithdrawalAlreadyFinalized
    | InsufficientLiquidity | ETHTransferFailed | TokenCallFailed | BalanceUnderflow | ArithmeticOverflow
    | MsgValueMismatch | NonZeroMsgValueForERC20 | MissingRole

  /** A call that should behave as `spec` either reached its state or failed with its error, untouched. */
  ghost predicate Follows<T>(spec: Outcome<T>, before: T, after: T, failure: Option<Error>) {
    match spec
    case Ok(s) => failure.None? && after == s
    case Revert(e) => failure == Some(e) && after == before
  }

  /** What the contracts take from outside: the hash, signature recovery (None where the library
      reverts), the EIP-712 domain separator, the chain id and the contract's own address. */
  datatype Crypto = Crypto(
    keccak: seq<byte> -> Word,
    recover: (Word, seq<byte>) -> Option<Address>,
    domainSeparator: Word,
    chainId: Word,
    self: Address)

  /** Balance lookup in a mapping whose absent keys read as zero. */
  function BalanceOf(balances: map<Address, nat>, token: Address): nat {
    if token in balances then balances[token] else 0
  }
}
