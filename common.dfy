/** Types shared by the block-processing modules: fixed-width integers, byte
    strings, the error values the processing code returns, miniblocks and the
    per-block transaction bookkeeping record. */
module Common {

  datatype Option<+T> = None | Some(value: T)

  datatype Result<+T, +E> = Ok(value: T) | Err(error: E)

  const TWO_32: int := 0x1_0000_0000
  const TWO_63: int := 0x8000_0000_0000_0000
  const TWO_64: int := 0x1_0000_0000_0000_0000

  type Byte = x: int | 0 <= x < 256
  type Bytes = seq<Byte>
  type Uint32 = x: int | 0 <= x < TWO_32
  type Uint64 = x: int | 0 <= x < TWO_64
  type Int64 = x: int | -TWO_63 <= x < TWO_63

  type ShardId = Uint32

  /** Go's `int64(x)` on a `uint64`: values from 2^63 on wrap to negatives. */
  function ToInt64(x: Uint64): (r: Int64)
    ensures x < TWO_63 ==> r == x
    ensures x >= TWO_63 ==> r < 0
    ensures (r - x) % TWO_64 == 0
  {
    if x < TWO_63 then x else x - TWO_64
  }

  /** Go's `+` on two `int64` values, which wraps around modulo 2^64. */
  function AddInt64(a: Int64, b: Int64): (r: Int64)
    ensures -TWO_63 <= a + b < TWO_63 ==> r == a + b
    ensures (r - (a + b)) % TWO_64 == 0
  {
    var s := a + b;
    if s >= TWO_63 then s - TWO_64 else if s < -TWO_63 then s + TWO_64 else s
  }

  /** Go's `-` on two `int64` values, which wraps around modulo 2^64. */
  function SubInt64(a: Int64, b: Int64): (r: Int64)
    ensures -TWO_63 <= a - b < TWO_63 ==> r == a - b
    ensures (r - (a - b)) % TWO_64 == 0
  {
    var d := a - b;
    if d >= TWO_63 then d - TWO_64 else if d < -TWO_63 then d + TWO_64 else d
  }

  /** The errors of the processing packages that the modelled code returns,
      plus an opaque error returned by a collaborator outside this model. */
  datatype Error =
    | ErrNilHeaderHandler
    | ErrHigherRoundInBlock
    | ErrLowerRoundInBlock
    | ErrLowerNonceInBlock
    | ErrHigherNonceInBlock
    | ErrTimeIsOut
    | ErrMissingTransaction
    | ErrWrongTypeAssertion
    | ErrWrongTypeInMiniBlock
    | ErrNilMiniBlockPool
    | ErrNilUTxDataPool
    | ErrNilSmartContractResult
    | ErrMarshalWithoutSuccess
    | ErrNilMiniBlocks
    | ErrMiniBlockHashMismatch
    | ErrWrongSize
    | ErrInvalidHexByte(c: char)
    | ErrOddHexLength
    | CollaboratorError(code: nat)

  /** Miniblock types; only the smart-contract-result type is told apart. */
  datatype MiniBlockType = SmartContractResultBlock | OtherType(code: nat)

  datatype MiniBlock = MiniBlock(
    txHashes: seq<Bytes>,
    receiverShardId: ShardId,
    senderShardId: ShardId,
    mbType: MiniBlockType)

  type Body = seq<MiniBlock>

  /** A transaction handler: smart contract results are told apart from
      every other kind, which is what the type assertions in the source do. */
  datatype Transaction = SmartContractResult(payload: Bytes) | OtherTransaction(payload: Bytes)

  /** What the per-block maps hold for a hash: the transaction (None for Go's
      nil) and the shard pair it travels between. */
  datatype TxInfo = TxInfo(tx: Option<Transaction>, senderShardId: ShardId, receiverShardId: ShardId)
}
