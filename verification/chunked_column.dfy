/**
 * The column-layer interface's concrete helpers: data-type classification, the offset range
 * check in front of the chunk lookup, and the default behaviour of the optional bulk readers.
 */
module ChunkedColumn {
  import opened Common

  predicate IsPrimitiveDataType(t: DataType) {
    t == Int8 || t == Int16 || t == Int32 || t == Int64 || t == Float || t == Double || t == Bool
  }

  predicate IsChunkedVariableColumnDataType(t: DataType) {
    t == String || t == VarChar || t == Text || t == Json
  }

  predicate IsChunkedArrayColumnDataType(t: DataType) {
    t == Array
  }

  predicate IsChunkedVectorArrayColumnDataType(t: DataType) {
    t == VectorArray
  }

  predicate IsChunkedColumnDataType(t: DataType) {
    !IsChunkedVariableColumnDataType(t) && !IsChunkedArrayColumnDataType(t)
  }

  /** The column layouts, in the order a column factory would test them. */
  datatype Layout = VariableLayout | ArrayLayout | VectorArrayLayout | FixedLayout

  /** The one layout the classifiers assign to a data type. */
  function LayoutOf(t: DataType): (l: Layout)
    ensures l == VariableLayout <==> IsChunkedVariableColumnDataType(t)
    ensures l == ArrayLayout <==> IsChunkedArrayColumnDataType(t)
    ensures l == VectorArrayLayout <==> IsChunkedVectorArrayColumnDataType(t)
    ensures l == FixedLayout <==> IsChunkedColumnDataType(t) && !IsChunkedVectorArrayColumnDataType(t)
  {
    match t
    case String | VarChar | Text | Json => VariableLayout
    case Array => ArrayLayout
    case VectorArray => VectorArrayLayout
    case _ => FixedLayout
  }

  /** The variable-length class and the array class are disjoint, and together they are exactly what a chunked column excludes. */
  lemma ChunkedColumnIsTheRest(t: DataType)
    ensures !(IsChunkedVariableColumnDataType(t) && IsChunkedArrayColumnDataType(t))
    ensures IsChunkedColumnDataType(t) <==> LayoutOf(t) != VariableLayout && LayoutOf(t) != ArrayLayout
  {
  }

  /** Every primitive type and the vector-array type are stored in plain chunked columns. */
  lemma ChunkedColumnIncludesPrimitivesAndVectorArrays(t: DataType)
    ensures IsPrimitiveDataType(t) ==> IsChunkedColumnDataType(t) && LayoutOf(t) == FixedLayout
    ensures IsChunkedVectorArrayColumnDataType(t) ==> IsChunkedColumnDataType(t)
  {
  }

  /** The primitive types are exactly the seven fixed-width scalars. */
  lemma PrimitiveTypesAreTheFixedWidthScalars()
    ensures forall t: DataType :: IsPrimitiveDataType(t) <==> t in {Bool, Int8, Int16, Int32, Int64, Float, Double}
  {
  }

  /** Chunk ids and in-chunk offsets of a batch of row offsets. */
  datatype ChunkPositions = ChunkPositions(cids: seq<int>, offsetsInChunk: seq<int>)

  /**
   * A column as the helpers see it: its row count and its implementation of
   * `GetChunkIDsByOffsets`, which is given the offsets and the count.
   */
  datatype Column = Column(dataType: DataType, numRows: nat, chunkIdsByOffsets: (seq<int>, int) -> ChunkPositions)

  /** Every offset among the first `count` is a row of the column. */
  predicate OffsetsInRange(offsets: seq<int>, count: int, numRows: nat)
    requires count <= |offsets|
  {
    forall i :: 0 <= i < count ==> 0 <= offsets[i] < numRows
  }

  /**
   * `ToChunkIdAndOffset`: a missing offsets buffer fails the assertion; any of the first `count`
   * offsets outside `[0, NumRows())` fails with OutOfRange; otherwise the column's own lookup
   * answers. A negative count checks nothing.
   */
  method ToChunkIdAndOffset(col: Column, offsets: Option<seq<int>>, count: int) returns (r: Result<ChunkPositions>)
    requires offsets.Some? ==> count <= |offsets.value|
    ensures offsets.None? ==> r == Err(UnexpectedError)
    ensures offsets.Some? && OffsetsInRange(offsets.value, count, col.numRows) ==>
      r == Ok(col.chunkIdsByOffsets(offsets.value, count))
    ensures offsets.Some? && !OffsetsInRange(offsets.value, count, col.numRows) ==> r == Err(OutOfRange)
  {
    if offsets.None? {
      return Err(UnexpectedError);
    }
    var s := offsets.value;
    var i := 0;
    while i < count
      invariant 0 <= i <= |s| && (count >= 0 ==> i <= count)
      invariant forall k :: 0 <= k < i ==> 0 <= s[k] < col.numRows
    {
      if s[i] < 0 || s[i] >= col.numRows {
        return Err(OutOfRange);
      }
      i := i + 1;
    }
    return Ok(col.chunkIdsByOffsets(s, count));
  }

  /** The bulk readers a column kind may override; the interface's defaults reject every call. */
  datatype BulkReader = BulkRawStringAt | BulkRawJsonAt | BulkArrayAt | BulkVectorArrayAt

  /** The default body of each optional bulk reader: whatever the offsets, Unsupported. */
  function DefaultBulkRead(reader: BulkReader, offsets: Option<seq<int>>, count: int): (r: Result<seq<int>>)
    ensures r.Err? && r.error == Unsupported
  {
    Err(Unsupported)
  }

  /** The default `ManualEvictCache` leaves the column as it is. */
  function ManualEvictCache(col: Column): (r: Column)
    ensures r == col
  {
    col
  }
}
