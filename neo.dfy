/**
 * The neo-go entities the deploy engine handles, and the collaborators it
 * calls, kept uninterpreted: each collaborator is a function-typed field, so
 * every property proved here holds for any implementation of it.
 */
module Neo {
  import opened Wrappers
  import opened GoErrors

  /** uint32, the width of block heights, validity windows and NEF checksums. */
  newtype u32 = x: int | 0 <= x < 0x1_0000_0000

  type Bytes = seq<bv8>

  /** util.Uint160: a 20-byte script hash, held in big-endian order (BytesBE). */
  type Uint160 = b: Bytes | |b| == 20 witness seq(20, _ => 0 as bv8)

  /** util.Uint256: a transaction hash. */
  type Uint256 = b: Bytes | |b| == 32 witness seq(32, _ => 0 as bv8)

  type PublicKey = Bytes
  type PrivateKey = Bytes
  type Signature = Bytes
  /** A signed transaction as the committee actor prepares it. */
  type Tx = Bytes

  /** manifest.Group */
  datatype Group = Group(publicKey: PublicKey, signature: Signature)

  /** manifest.Manifest: the name, the group list, and every other field (ABI, permissions, ...) as one opaque value. */
  datatype Manifest = Manifest(name: string, groups: seq<Group>, rest: Bytes)

  /** nef.File: its checksum and the rest of the executable. */
  datatype Nef = Nef(checksum: u32, script: Bytes)

  /** state.Contract */
  datatype ContractState = ContractState(id: int, hash: Uint160, nef: Nef, manifest: Manifest)

  /**
   * A VM stack item. ByteString stands for every item whose TryBytes succeeds
   * (byte strings, buffers, integers, booleans) with those bytes read as a Go
   * string; Other stands for the remaining kinds (maps, interop, pointers),
   * named by their type.
   */
  datatype StackItem =
    | Null
    | Array(items: seq<StackItem>)
    | Struct(fields: seq<StackItem>)
    | ByteString(data: string)
    | Other(typeName: string)

  /** A parameter of a read-only contract invocation. */
  datatype Param = StringParam(s: string) | IntParam(n: int)

  /**
   * The ledger client as the engine reads it within one loop iteration:
   * GetContractStateByID, GetContractStateByHash, and invoker.Call followed
   * by unwrap.Item.
   */
  datatype Blockchain = Blockchain(
    contractStateByID: int -> Result<ContractState, Error>,
    contractStateByHash: Uint160 -> Result<ContractState, Error>,
    invoke: (Uint160, string, seq<Param>) -> Result<StackItem, Error>)

  /** state.CreateContractHash, PrivateKey.Sign and PrivateKey.PublicKey. */
  datatype Crypto = Crypto(
    createContractHash: (Uint160, u32, string) -> Uint160,
    sign: (PrivateKey, Bytes) -> Signature,
    publicKey: PrivateKey -> PublicKey)

  /** util.Uint160DecodeStringLE and address.StringToUint160; None is a decoding error. */
  datatype AddressCodec = AddressCodec(
    decodeStringLE: string -> Option<Uint160>,
    decodeAddress: string -> Option<Uint160>)

  /** A transaction sent earlier with this valid-until block may still be accepted at this height. */
  predicate ValidityWindowOpen(validUntilBlock: u32, currentHeight: u32)
  {
    validUntilBlock > 0 && currentHeight <= validUntilBlock
  }

  /**
   * What one iteration of a retry loop decides: go on after the next block,
   * return a value, return an error, or hand a transaction to the chain
   * (after which the loop also goes on after the next block).
   */
  datatype Decision<+T, +C> = Continue | Return(value: T) | Fail(error: Error) | Submit(call: C)
  {
    /** The loop ends with this decision. */
    predicate Terminal()
    {
      Return? || Fail?
    }
  }
}
