// The commands a client sends and the responses it gets (src/commands.rs).
module Commands {
  import opened Bytes

  const U32_MAX := 0xFFFF_FFFF
  const U64_MAX := 0xFFFF_FFFF_FFFF_FFFF
  const I64_MAX := 0x7FFF_FFFF_FFFF_FFFF
  const I64_MIN := -0x8000_0000_0000_0000
  const TWO_64 := 0x1_0000_0000_0000_0000

  type u32 = n: int | 0 <= n <= U32_MAX
  type u64 = n: int | 0 <= n <= U64_MAX
  type i64 = n: int | I64_MIN <= n <= I64_MAX

  datatype StoreOp = Set | Add | Replace | Append | Prepend | Cas

  datatype StoreArgs = StoreArgs(
    key: bytes, flags: u32, exptime: i64, data: bytes, noreply: bool, cas: Option<u64>)

  datatype ArithmeticOp = Incr | Decr

  datatype Command =
    | Get(keys: seq<bytes>, withCas: bool)
    | Store(op: StoreOp, args: StoreArgs)
    | Delete(key: bytes, noreply: bool)
    | Arithmetic(arith: ArithmeticOp, key: bytes, delta: u64, noreply: bool)
    | GetAndTouch(keys: seq<bytes>, exptime: i64, withCas: bool)
    | Touch(key: bytes, exptime: i64, noreply: bool)
    | FlushAll(delay: Option<u32>, noreply: bool)
    | Version
    | Verbosity(level: u32, noreply: bool)
    | Stats
  {
    /** Whether the client asked for no reply; retrievals always answer. */
    predicate NoReply() {
      match this
      case Get(_, _) => false
      case GetAndTouch(_, _, _) => false
      case Stats => false
      case Version => false
      case Store(_, a) => a.noreply
      case Delete(_, n) => n
      case Arithmetic(_, _, _, n) => n
      case Touch(_, _, n) => n
      case FlushAll(_, n) => n
      case Verbosity(_, n) => n
    }
  }

  datatype Value = Value(key: bytes, flags: u32, data: bytes, cas: Option<nat>)

  datatype Response =
    | Stored
    | NotStored
    | Deleted
    | NotFound
    | Exists
    | Touched
    | Values(values: seq<Value>)
    | Number(number: u64)
    | Okay
    | VersionIs(version: bytes)
    | Error
    | ClientError(message: bytes)
    | ServerError(message: bytes)
    | StatsReport(entries: seq<(bytes, bytes)>)
}
