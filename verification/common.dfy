/** Failure-compatible wrappers and the error codes shared by every component. */
module Common {

  datatype Option<+T> = None | Some(value: T)

  const Int64Min: int := -0x8000_0000_0000_0000
  const Int64Max: int := 0x7FFF_FFFF_FFFF_FFFF

  /** The values a signed 64-bit integer (Go `int64`, C++ `int64_t`) can hold. */
  predicate IsInt64(v: int) {
    Int64Min <= v <= Int64Max
  }

  /** The error kinds raised by the modelled code, C++ exceptions and Go errors alike. */
  datatype ErrorCode =
    // caching layer and column layer (C++ ErrorCode values)
    | OutOfRange
    | InsufficientResource
    | LoadFailed(reason: string)
    | Unsupported
    | UnexpectedError
    | InvalidParameter
    | OpTypeInvalid
    | DataTypeInvalid
    // root-coord catalog
    | PartitionAlreadyExists
    | AlterIdForbidden
    | AlterDbNeedsOwnInterface
    // proxy index tasks
    | UnknownFunctionType
    | MetricTypeMismatch
    | DimensionNotFound
    | DimensionMismatch
    | DuplicatedIndexParam
    | InvalidJsonParams
    | DeleteKeysWithExtraParams
    | NotConfigurableIndexParam
    | EmptyIndexName
    | CollectionLoaded

  /** The segment core's element data types (those the modelled code distinguishes, plus the vector kinds). */
  datatype DataType =
    | NoneType
    | Bool | Int8 | Int16 | Int32 | Int64 | Float | Double
    | String | VarChar | Array | Json | Text
    | VectorBinary | VectorFloat | VectorFloat16 | VectorBFloat16 | VectorSparseFloat | VectorInt8
    | VectorArray

  datatype Result<+T> = Ok(value: T) | Err(error: ErrorCode) {
    predicate IsFailure() {
      Err?
    }

    function PropagateFailure<U>(): Result<U>
      requires Err?
    {
      Err(error)
    }

    function Extract(): T
      requires Ok?
    {
      value
    }
  }
}
