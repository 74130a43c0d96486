/**
 * The unary range filter's pure decisions: the integer-overflow short-circuit, splitting a
 * JSON path at its first array index, when a JSON index may serve a query, the phrase-match
 * slop bound, and the per-row semantics of comparing a JSON field against a literal.
 */
module UnaryExpr {
  import opened Common

  datatype OpType =
    | GreaterThan | GreaterEqual | LessThan | LessEqual | Equal | NotEqual
    | PrefixMatch | PostfixMatch | InnerMatch | Match
    | TextMatch | PhraseMatch | Range

  // ---------------------------------------------------------------------------
  // Integer overflow short-circuit

  /** The column types the overflow check applies to: integral and not bool. */
  predicate IsNonBoolIntegral(t: DataType) {
    t == Int8 || t == Int16 || t == Int32 || t == Int64
  }

  function MinOf(t: DataType): int
    requires IsNonBoolIntegral(t)
  {
    match t
    case Int8 => -0x80
    case Int16 => -0x8000
    case Int32 => -0x8000_0000
    case _ => Int64Min
  }

  function MaxOf(t: DataType): int
    requires IsNonBoolIntegral(t)
  {
    match t
    case Int8 => 0x7F
    case Int16 => 0x7FFF
    case Int32 => 0x7FFF_FFFF
    case _ => Int64Max
  }

  /** The literal is below the column type's range (`lt_lb`). */
  predicate BelowRange(t: DataType, v: int)
    requires IsNonBoolIntegral(t)
  {
    v < MinOf(t)
  }

  /** The literal is above the column type's range (`gt_ub`). */
  predicate AboveRange(t: DataType, v: int)
    requires IsNonBoolIntegral(t)
  {
    v > MaxOf(t)
  }

  /**
   * The answer every row of an overflowing batch gets: a literal below the type's range is
   * greater than every value, one above it is less than every value, and none is equal.
   */
  predicate OverflowAnswer(t: DataType, v: int, op: OpType, rowValid: bool)
    requires IsNonBoolIntegral(t)
  {
    match op
    case GreaterThan | GreaterEqual => BelowRange(t, v) && rowValid
    case LessThan | LessEqual => AboveRange(t, v) && rowValid
    case NotEqual => rowValid
    case _ => false
  }

  /** Where the filter stands in the segment: rows checked so far, the batch size, and the row count. */
  datatype Cursor = Cursor(pos: nat, batchSize: nat, activeCount: nat)

  /** A precomputed result for the whole batch, or "evaluate normally". */
  datatype ShortCircuit = NoShortCircuit | Precomputed(res: seq<bool>, valid: seq<bool>)

  /**
   * The precomputed answer for `n` rows of an overflowing batch: every row gets the answer the
   * operator gives, the validity is each row's own, and an operator other than the six
   * comparisons is rejected.
   */
  function OverflowBatch(t: DataType, v: int, op: OpType, n: nat, validAt: nat -> bool): (r: Result<ShortCircuit>)
    requires IsNonBoolIntegral(t) && (BelowRange(t, v) || AboveRange(t, v))
    ensures op in {GreaterThan, GreaterEqual, LessThan, LessEqual, Equal, NotEqual} <==> r.Ok?
    ensures r.Err? ==> r.error == OpTypeInvalid
    ensures r.Ok? ==> r.value.Precomputed? && |r.value.res| == n && |r.value.valid| == n
    ensures r.Ok? ==> forall i :: 0 <= i < n ==> r.value.valid[i] == validAt(i)
    ensures r.Ok? ==> forall i :: 0 <= i < n ==> r.value.res[i] == OverflowAnswer(t, v, op, validAt(i))
  {
    var valid := seq(n, i requires 0 <= i < n => validAt(i));
    var allFalse := seq(n, i requires 0 <= i < n => false);
    match op
    case GreaterThan | GreaterEqual => Ok(Precomputed(if BelowRange(t, v) then valid else allFalse, valid))
    case LessThan | LessEqual => Ok(Precomputed(if AboveRange(t, v) then valid else allFalse, valid))
    case Equal => Ok(Precomputed(allFalse, valid))
    case NotEqual => Ok(Precomputed(valid, valid))
    case _ => Err(OpTypeInvalid)
  }

  /**
   * `PreCheckOverflow`: when the column is a non-bool integer type and the int64 literal lies
   * outside it, every row of the batch has the same answer, computed here without reading data.
   * `inputSize` is the size of the offset input when there is one; `validAt(i)` is the validity
   * of the batch's i-th row. The cursor advances (before the operator is inspected) only when
   * there is no offset input.
   */
  function PreCheckOverflow(t: DataType, v: int, op: OpType, inputSize: Option<nat>, c: Cursor, validAt: nat -> bool)
    : (r: (Result<ShortCircuit>, Cursor))
    requires IsInt64(v) && c.pos <= c.activeCount
    ensures !(IsNonBoolIntegral(t) && (BelowRange(t, v) || AboveRange(t, v))) ==> r == (Ok(NoShortCircuit), c)
    ensures r.1.batchSize == c.batchSize && r.1.activeCount == c.activeCount && r.1.pos <= c.activeCount
    ensures inputSize.Some? ==> r.1 == c
    ensures r.0.Ok? && r.0.value.Precomputed? ==>
      var n := |r.0.value.res|;
      && |r.0.value.valid| == n
      && (inputSize.Some? ==> n == inputSize.value)
      && (inputSize.None? ==> r.1.pos == c.pos + n && n <= c.batchSize && (n < c.batchSize ==> r.1.pos == c.activeCount))
      && (forall i :: 0 <= i < n ==> r.0.value.valid[i] == validAt(i))
    ensures IsNonBoolIntegral(t) && (BelowRange(t, v) || AboveRange(t, v)) ==>
      && (op in {GreaterThan, GreaterEqual, LessThan, LessEqual, Equal, NotEqual} <==> r.0.Ok?)
      && (r.0.Err? ==> r.0.error == OpTypeInvalid)
      && (r.0.Ok? ==> r.0.value.Precomputed?)
      && (r.0.Ok? ==> forall i :: 0 <= i < |r.0.value.res| ==> r.0.value.res[i] == OverflowAnswer(t, v, op, validAt(i)))
    ensures inputSize.None? && IsNonBoolIntegral(t) && (BelowRange(t, v) || AboveRange(t, v)) ==>
      c.pos <= r.1.pos <= c.pos + c.batchSize && (r.1.pos < c.pos + c.batchSize ==> r.1.pos == c.activeCount)
  {
    if !(IsNonBoolIntegral(t) && (BelowRange(t, v) || AboveRange(t, v))) then (Ok(NoShortCircuit), c)
    else
      var n: nat := if inputSize.Some? then inputSize.value
        else if c.pos + c.batchSize >= c.activeCount then c.activeCount - c.pos
        else c.batchSize;
      var next := if inputSize.Some? then c else c.(pos := c.pos + n);
      (OverflowBatch(t, v, op, n, validAt), next)
  }

  /** An int64 literal never overflows an int64 column, so that column is always evaluated normally. */
  lemma Int64ColumnNeverShortCircuits(v: int, op: OpType, inputSize: Option<nat>, c: Cursor, validAt: nat -> bool)
    requires IsInt64(v) && c.pos <= c.activeCount
    ensures PreCheckOverflow(Int64, v, op, inputSize, c, validAt) == (Ok(NoShortCircuit), c)
  {
  }

  /**
   * Without offset input, the overflow short-circuit walks the segment batch by batch: each
   * call covers `min(batchSize, rows left)` rows, so after `k` calls from position 0 it has
   * covered `min(k * batchSize, activeCount)` rows.
   */
  lemma {:induction false} OverflowBatchesCoverSegment(t: DataType, v: int, op: OpType, c: Cursor, validAt: nat -> bool, k: nat)
    requires IsInt64(v) && c.pos == 0
    requires IsNonBoolIntegral(t) && (BelowRange(t, v) || AboveRange(t, v))
    ensures AfterBatches(t, v, op, c, validAt, k).pos == Clamp(k * c.batchSize, c.activeCount)
  {
    if k > 0 {
      OverflowBatchesCoverSegment(t, v, op, c, validAt, k - 1);
      OverflowBatchStep(t, v, op, c, validAt, k);
    }
  }

  function Clamp(x: int, limit: int): int {
    if x <= limit then x else limit
  }

  lemma OverflowBatchStep(t: DataType, v: int, op: OpType, c: Cursor, validAt: nat -> bool, k: nat)
    requires IsInt64(v) && c.pos == 0 && k > 0
    requires IsNonBoolIntegral(t) && (BelowRange(t, v) || AboveRange(t, v))
    requires AfterBatches(t, v, op, c, validAt, k - 1).pos == Clamp((k - 1) * c.batchSize, c.activeCount)
    ensures AfterBatches(t, v, op, c, validAt, k).pos == Clamp(k * c.batchSize, c.activeCount)
  {
    var d := AfterBatches(t, v, op, c, validAt, k - 1);
    OverflowStepAdvances(t, v, op, d, validAt);
    var covered := (k - 1) * c.batchSize;
    assert k * c.batchSize == covered + c.batchSize;
    ClampedAdvance(covered, c.batchSize, c.activeCount, d.pos);
  }

  /** Advancing a position clamped at `limit` by `step` and clamping again is clamping the advanced total. */
  lemma ClampedAdvance(covered: int, step: nat, limit: int, pos: int)
    requires pos == Clamp(covered, limit)
    ensures Clamp(pos + step, limit) == Clamp(covered + step, limit)
  {
  }

  /** One short-circuited batch without offset input moves the cursor to `min(pos + batchSize, activeCount)`. */
  lemma OverflowStepAdvances(t: DataType, v: int, op: OpType, d: Cursor, validAt: nat -> bool)
    requires IsInt64(v) && d.pos <= d.activeCount
    requires IsNonBoolIntegral(t) && (BelowRange(t, v) || AboveRange(t, v))
    ensures PreCheckOverflow(t, v, op, None, d, validAt).1 == d.(pos := Clamp(d.pos + d.batchSize, d.activeCount))
  {
  }

  /** The cursor after `k` batches without offset input. */
  function AfterBatches(t: DataType, v: int, op: OpType, c: Cursor, validAt: nat -> bool, k: nat): (d: Cursor)
    requires IsInt64(v) && c.pos <= c.activeCount
    ensures d.pos <= d.activeCount && d.batchSize == c.batchSize && d.activeCount == c.activeCount
  {
    if k == 0 then c
    else PreCheckOverflow(t, v, op, None, AfterBatches(t, v, op, c, validAt, k - 1), validAt).1
  }

  // ---------------------------------------------------------------------------
  // JSON paths

  predicate IsDigit(ch: char) {
    '0' <= ch <= '9'
  }

  /** Position `p` of `s` starts a "/<digit>" (the regular expression `/\d+`). */
  predicate SlashDigitAt(s: string, p: int) {
    0 <= p && p + 1 < |s| && s[p] == '/' && IsDigit(s[p + 1])
  }

  /** The first position at or after `from` that starts a "/<digit>". */
  function FirstSlashDigit(s: string, from: nat): (r: Option<nat>)
    requires from <= |s|
    ensures r.Some? ==> from <= r.value < |s| && SlashDigitAt(s, r.value)
    ensures r.Some? ==> forall p :: from <= p < r.value ==> !SlashDigitAt(s, p)
    ensures r.None? ==> forall p :: from <= p < |s| ==> !SlashDigitAt(s, p)
    decreases |s| - from
  {
    if from == |s| then None
    else if SlashDigitAt(s, from) then Some(from)
    else FirstSlashDigit(s, from + 1)
  }

  /**
   * `SplitAtFirstSlashDigit`: the path up to its first array index, and the rest. The parts
   * always concatenate back to the input; the second part is empty exactly when no "/<digit>"
   * occurs, and otherwise starts at the first one.
   */
  function SplitAtFirstSlashDigit(s: string): (r: (string, string))
    ensures r.0 + r.1 == s
    ensures r.1 == [] <==> forall p :: 0 <= p < |s| ==> !SlashDigitAt(s, p)
    ensures r.1 != [] ==> SlashDigitAt(s, |r.0|)
    ensures forall p :: 0 <= p < |r.0| ==> !SlashDigitAt(s, p)
  {
    match FirstSlashDigit(s, 0)
    case None => (s, [])
    case Some(p) => (s[..p], s[p..])
  }

  /**
   * `CanUseIndexForJson`: a JSON index serves the query when one exists for the path and type,
   * except that string-typed values cannot use it for the regex-like matches.
   */
  function CanUseIndexForJson(valType: DataType, hasIndex: bool, op: OpType): (use: bool)
    ensures (valType == String || valType == VarChar) ==>
      (use <==> hasIndex && op != Match && op != PostfixMatch && op != InnerMatch)
    ensures !(valType == String || valType == VarChar) ==> (use <==> hasIndex)
    ensures use ==> hasIndex
  {
    match valType
    case String | VarChar => hasIndex && op != Match && op != PostfixMatch && op != InnerMatch
    case _ => hasIndex
  }

  const UInt32Max: int := 0xFFFF_FFFF

  /**
   * The slop `ExecTextMatch` passes to the text index: a phrase match takes the first extra
   * value (0 when there is none) and rejects anything outside `[0, UINT32_MAX]`; a text match
   * uses 0; any other operator is not a match query.
   */
  function TextMatchSlop(op: OpType, extraValues: seq<int>): (r: Result<nat>)
    ensures op == TextMatch ==> r == Ok(0)
    ensures op == PhraseMatch && |extraValues| == 0 ==> r == Ok(0)
    ensures op == PhraseMatch && |extraValues| > 0 ==>
      (r.Ok? <==> 0 <= extraValues[0] <= UInt32Max) && (r.Ok? ==> r.value == extraValues[0])
    ensures r.Err? ==> r.error == (if op == PhraseMatch then InvalidParameter else OpTypeInvalid)
    ensures r.Ok? ==> r.value <= UInt32Max
  {
    if op == PhraseMatch then
      var slop := if |extraValues| > 0 then extraValues[0] else 0;
      if slop < 0 || slop > UInt32Max then Err(InvalidParameter) else Ok(slop)
    else if op == TextMatch then Ok(0)
    else Err(OpTypeInvalid)
  }

  /** The text-index query a match filter runs. */
  datatype TextQuery = TokenMatch | PhraseMatchWithin(slop: nat)

  /**
   * The match branch of `ExecRangeVisitorImpl`, entered for the two match operators: a match
   * cannot run as an iterative filter (one with offset input); otherwise a text match asks the
   * text index for the query's tokens, and a phrase match asks for the phrase within the slop.
   */
  function ExecMatch(op: OpType, extraValues: seq<int>, hasOffsetInput: bool): (r: Result<TextQuery>)
    requires op == TextMatch || op == PhraseMatch
    ensures hasOffsetInput ==> r == Err(OpTypeInvalid)
    ensures !hasOffsetInput && op == TextMatch ==> r == Ok(TokenMatch)
    ensures !hasOffsetInput && op == PhraseMatch && |extraValues| == 0 ==> r == Ok(PhraseMatchWithin(0))
    ensures !hasOffsetInput && op == PhraseMatch && |extraValues| > 0 && 0 <= extraValues[0] <= UInt32Max ==>
      r == Ok(PhraseMatchWithin(extraValues[0]))
    ensures r.Err? && !hasOffsetInput ==>
      op == PhraseMatch && |extraValues| > 0 && !(0 <= extraValues[0] <= UInt32Max) && r.error == InvalidParameter
  {
    if hasOffsetInput then Err(OpTypeInvalid)
    else
      match TextMatchSlop(op, extraValues)
      case Err(e) => Err(e)
      case Ok(slop) => if op == TextMatch then Ok(TokenMatch) else Ok(PhraseMatchWithin(slop))
  }

  /** Where a filter on a JSON field is evaluated. */
  datatype JsonRoute = NgramIndex | JsonPathIndex(probeAs: DataType) | RowScan

  /**
   * The JSON case of `Eval`: an n-gram index answers first when it can (`ngramAnswers`, which the
   * index decides); otherwise the JSON-path index serves the filter when `CanUseIndexForJson`
   * allows it and the filter is not iterative, probed as bool, string or double (an integer
   * literal is widened to double); everything else scans the rows. `valType` is the data type of
   * the literal's kind.
   */
  function JsonDispatch(lit: Literal, valType: DataType, hasIndex: bool, op: OpType, ngramAnswers: bool, hasOffsetInput: bool): (r: Result<JsonRoute>)
    ensures ngramAnswers && !hasOffsetInput ==> r == Ok(NgramIndex)
    ensures r.Ok? && r.value.JsonPathIndex? ==> hasIndex && !hasOffsetInput && !ngramAnswers
    ensures r.Ok? && r.value.JsonPathIndex? ==>
      r.value.probeAs == (if lit.LBool? then Bool else if lit.LStr? then String else Double)
    ensures (valType == String || valType == VarChar) && (op == Match || op == PostfixMatch || op == InnerMatch) ==>
      r == (if ngramAnswers && !hasOffsetInput then Ok(NgramIndex) else Ok(RowScan))
    ensures !hasIndex && !(ngramAnswers && !hasOffsetInput) ==> r == Ok(RowScan)
    ensures r.Err? ==> lit.LArray? && hasIndex && r.error == DataTypeInvalid
    ensures !ngramAnswers && !hasOffsetInput && CanUseIndexForJson(valType, hasIndex, op) ==>
      if lit.LArray? then r == Err(DataTypeInvalid) else r.Ok? && r.value.JsonPathIndex?
    ensures !(ngramAnswers && !hasOffsetInput) && !(CanUseIndexForJson(valType, hasIndex, op) && !hasOffsetInput) ==>
      r == Ok(RowScan)
  {
    if ngramAnswers && !hasOffsetInput then Ok(NgramIndex)
    else if CanUseIndexForJson(valType, hasIndex, op) && !hasOffsetInput then
      match lit
      case LBool(_) => Ok(JsonPathIndex(Bool))
      case LInt(_) => Ok(JsonPathIndex(Double))
      case LFloat(_) => Ok(JsonPathIndex(Double))
      case LStr(_) => Ok(JsonPathIndex(String))
      case LArray(_) => Err(DataTypeInvalid)
    else Ok(RowScan)
  }

  // ---------------------------------------------------------------------------
  // Comparing a JSON field with a literal

  /** A scalar as the comparison sees it; JSON numbers are compared as (exact) reals. */
  datatype Scalar = Num(x: real) | BoolV(b: bool) | Str(s: string)

  /** What a row holds at the filter's JSON pointer. */
  datatype JsonAt = Absent | JInt(i: int) | JFloat(d: real) | JBool(b: bool) | JStr(s: string) | JArr(elems: seq<Scalar>) | JOther

  /** The filter's literal; its kind fixes the type the row value is read as. */
  datatype Literal = LInt(i: int) | LFloat(d: real) | LBool(b: bool) | LStr(s: string) | LArray(elems: seq<Scalar>)

  function LitScalar(lit: Literal): Scalar
    requires !lit.LArray?
  {
    match lit
    case LInt(i) => Num(i as real)
    case LFloat(d) => Num(d)
    case LBool(b) => BoolV(b)
    case LStr(s) => Str(s)
  }

  /**
   * Reading the row value as the literal's type: an integer literal reads JSON integers, and
   * falls back to reading the value as a double; a double literal reads any JSON number.
   * `None` is a missing key or a value of another type.
   */
  function ReadAs(lit: Literal, at: JsonAt): (x: Option<Scalar>)
    requires !lit.LArray?
    ensures at.Absent? || at.JOther? || at.JArr? ==> x.None?
    ensures x.Some? ==> (x.value.Num? <==> LitScalar(lit).Num?) && (x.value.Str? <==> LitScalar(lit).Str?)
  {
    match (lit, at)
    case (LInt(_), JInt(i)) => Some(Num(i as real))
    case (LInt(_), JFloat(d)) => Some(Num(d))
    case (LFloat(_), JInt(i)) => Some(Num(i as real))
    case (LFloat(_), JFloat(d)) => Some(Num(d))
    case (LBool(_), JBool(b)) => Some(BoolV(b))
    case (LStr(_), JStr(s)) => Some(Str(s))
    case _ => None
  }

  /** Byte-wise lexicographic order, as `std::string` compares. */
  predicate StrLess(a: string, b: string)
    decreases |a|
  {
    if |a| == 0 then |b| > 0
    else if |b| == 0 then false
    else if a[0] != b[0] then a[0] < b[0]
    else StrLess(a[1..], b[1..])
  }

  predicate ScalarLess(a: Scalar, b: Scalar) {
    match (a, b)
    case (Num(x), Num(y)) => x < y
    case (BoolV(x), BoolV(y)) => !x && y
    case (Str(x), Str(y)) => StrLess(x, y)
    case _ => false
  }

  /** The operators the JSON comparison handles; any other one is rejected with OpTypeInvalid. */
  predicate IsJsonCompareOp(op: OpType) {
    op in {GreaterThan, GreaterEqual, LessThan, LessEqual, Equal, NotEqual, PrefixMatch, PostfixMatch, InnerMatch, Match}
  }

  /** `x op v` for a value that was read successfully; pattern matches are a parameter. */
  predicate Holds(op: OpType, x: Scalar, v: Scalar, matches: (Scalar, Scalar, OpType) -> bool) {
    match op
    case GreaterThan => ScalarLess(v, x)
    case GreaterEqual => !ScalarLess(x, v)
    case LessThan => ScalarLess(x, v)
    case LessEqual => !ScalarLess(v, x)
    case Equal => x == v
    case NotEqual => x != v
    case _ => matches(x, v, op)
  }

  /** One row's result bit and validity bit. */
  datatype RowResult = RowResult(res: bool, valid: bool)

  /**
   * One row of the JSON comparison. `scalarAt` is what the scalar branch reads, `arrayAt`
   * what the array-literal branch reads (they differ only in which row the caller passes).
   */
  function EvalRow(op: OpType, lit: Literal, rowValid: bool, skip: bool, scalarAt: JsonAt, arrayAt: JsonAt,
                   matches: (Scalar, Scalar, OpType) -> bool): (r: RowResult)
    requires IsJsonCompareOp(op)
    // a null row is false and invalid
    ensures !rowValid ==> r == RowResult(false, false)
    // a row the incoming bitmap excludes keeps its initial bits
    ensures rowValid && skip ==> r == RowResult(false, true)
    ensures rowValid ==> r.valid
    // a missing key or a value of another type: NotEqual holds, every other comparison fails
    ensures rowValid && !skip && !lit.LArray? && ReadAs(lit, scalarAt).None? ==> r.res == (op == NotEqual)
    ensures rowValid && !skip && !lit.LArray? && ReadAs(lit, scalarAt).Some? ==>
      r.res == Holds(op, ReadAs(lit, scalarAt).value, LitScalar(lit), matches)
    // an array literal: only Equal and NotEqual look at the row, and a missing array is false for both
    ensures rowValid && !skip && lit.LArray? ==>
      r.res == (arrayAt.JArr? && ((op == Equal && arrayAt.elems == lit.elems) || (op == NotEqual && arrayAt.elems != lit.elems)))
  {
    if !rowValid then RowResult(false, false)
    else if skip then RowResult(false, true)
    else if lit.LArray? then
      if (op == Equal || op == NotEqual) && arrayAt.JArr? then
        RowResult(if op == Equal then arrayAt.elems == lit.elems else arrayAt.elems != lit.elems, true)
      else RowResult(false, true)
    else
      match ReadAs(lit, scalarAt)
      case None => RowResult(op == NotEqual, true)
      case Some(x) => RowResult(Holds(op, x, LitScalar(lit), matches), true)
  }

  /** A literal that is not an array: NotEqual is exactly the negation of Equal on every valid, unskipped row. */
  lemma NotEqualIsComplementOfEqual(lit: Literal, at: JsonAt, matches: (Scalar, Scalar, OpType) -> bool)
    requires !lit.LArray?
    ensures EvalRow(NotEqual, lit, true, false, at, at, matches).res == !EvalRow(Equal, lit, true, false, at, at, matches).res
  {
  }

  /**
   * The input of one sub-batch of rows: the chunk's rows at the pointer, their validity, the
   * offsets (for random access; `None` reads rows in order), the incoming bitmap and its cursor.
   */
  datatype SubBatch = SubBatch(
    data: seq<JsonAt>,
    validData: Option<seq<bool>>,
    offsets: Option<seq<int>>,
    bitmap: seq<bool>,
    cursor: nat)

  function Size(b: SubBatch): nat {
    if b.offsets.Some? then |b.offsets.value| else |b.data|
  }

  predicate WellFormed(b: SubBatch) {
    && (b.validData.Some? ==> |b.validData.value| == |b.data|)
    && (b.offsets.Some? ==> forall i :: 0 <= i < |b.offsets.value| ==> 0 <= b.offsets.value[i] < |b.data|)
    && (|b.bitmap| > 0 ==> b.cursor + Size(b) <= |b.bitmap|)
  }

  /** The row the i-th result bit is about. */
  function OffsetOf(b: SubBatch, i: nat): (o: nat)
    requires WellFormed(b) && i < Size(b)
    ensures o < |b.data|
  {
    if b.offsets.Some? then b.offsets.value[i] else i
  }

  function RowValid(b: SubBatch, o: nat): bool
    requires WellFormed(b) && o < |b.data|
  {
    b.validData.None? || b.validData.value[o]
  }

  function Skipped(b: SubBatch, i: nat): bool
    requires WellFormed(b) && i < Size(b)
  {
    |b.bitmap| > 0 && !b.bitmap[i + b.cursor]
  }

  /**
   * The JSON comparison of one sub-batch as written: the array-literal branch reads row `i`
   * of the chunk where every other branch reads row `offsets[i]`.
   */
  function JsonCompareAsWritten(op: OpType, lit: Literal, b: SubBatch, matches: (Scalar, Scalar, OpType) -> bool)
    : (r: Result<seq<RowResult>>)
    requires WellFormed(b) && Size(b) <= |b.data|
    ensures !IsJsonCompareOp(op) <==> r == Err(OpTypeInvalid)
    ensures r.Ok? ==> |r.value| == Size(b)
  {
    if !IsJsonCompareOp(op) then Err(OpTypeInvalid)
    else Ok(seq(Size(b), i requires 0 <= i < Size(b) =>
      EvalRow(op, lit, RowValid(b, OffsetOf(b, i)), Skipped(b, i), b.data[OffsetOf(b, i)], b.data[i], matches)))
  }

  /** The JSON comparison of one sub-batch, every branch reading row `offsets[i]`. */
  function JsonCompare(op: OpType, lit: Literal, b: SubBatch, matches: (Scalar, Scalar, OpType) -> bool)
    : (r: Result<seq<RowResult>>)
    requires WellFormed(b)
    ensures !IsJsonCompareOp(op) <==> r == Err(OpTypeInvalid)
    ensures r.Ok? ==> |r.value| == Size(b)
    ensures r.Ok? ==> forall i :: 0 <= i < Size(b) ==>
      var o := OffsetOf(b, i);
      r.value[i] == EvalRow(op, lit, RowValid(b, o), Skipped(b, i), b.data[o], b.data[o], matches)
  {
    if !IsJsonCompareOp(op) then Err(OpTypeInvalid)
    else Ok(seq(Size(b), i requires 0 <= i < Size(b) =>
      var o := OffsetOf(b, i);
      EvalRow(op, lit, RowValid(b, o), Skipped(b, i), b.data[o], b.data[o], matches)))
  }

  /** The rows that random access visits, laid out in order. */
  function Gathered(b: SubBatch): (g: SubBatch)
    requires WellFormed(b)
    ensures WellFormed(g) && g.offsets.None? && Size(g) == Size(b)
  {
    var n := Size(b);
    SubBatch(
      seq(n, i requires 0 <= i < n => b.data[OffsetOf(b, i)]),
      if b.validData.Some? then Some(seq(n, i requires 0 <= i < n => RowValid(b, OffsetOf(b, i)))) else None,
      None, b.bitmap, b.cursor)
  }

  /** Reading rows by offset is the same as reading the gathered rows in order. */
  lemma RandomAccessMatchesSequential(op: OpType, lit: Literal, b: SubBatch, matches: (Scalar, Scalar, OpType) -> bool)
    requires WellFormed(b)
    ensures JsonCompare(op, lit, b, matches) == JsonCompare(op, lit, Gathered(b), matches)
  {
    var g := Gathered(b);
    if IsJsonCompareOp(op) {
      var r1 := JsonCompare(op, lit, b, matches).value;
      var r2 := JsonCompare(op, lit, g, matches).value;
      forall i | 0 <= i < Size(b) ensures r1[i] == r2[i] {
        assert OffsetOf(g, i) == i;
        assert g.data[i] == b.data[OffsetOf(b, i)];
        assert RowValid(g, i) == RowValid(b, OffsetOf(b, i));
      }
      assert r1 == r2;
    }
  }

  /**
   * The array-literal branch as written reads the wrong row under random access: with rows
   * `[missing, []]`, offsets `[1]` and the literal `[]`, Equal answers false for row 1,
   * which holds exactly `[]`.
   */
  lemma ArrayBranchReadsWrongRow(matches: (Scalar, Scalar, OpType) -> bool)
    ensures var b := SubBatch([Absent, JArr([])], None, Some([1]), [], 0);
      && JsonCompareAsWritten(Equal, LArray([]), b, matches) == Ok([RowResult(false, true)])
      && JsonCompare(Equal, LArray([]), b, matches) == Ok([RowResult(true, true)])
  {
    var b := SubBatch([Absent, JArr([])], None, Some([1]), [], 0);
    assert Size(b) == 1 && OffsetOf(b, 0) == 1 && RowValid(b, 1) && !Skipped(b, 0);
    var asWritten := JsonCompareAsWritten(Equal, LArray([]), b, matches).value;
    assert asWritten[0] == EvalRow(Equal, LArray([]), true, false, JArr([]), Absent, matches) == RowResult(false, true);
    assert asWritten == [RowResult(false, true)];
    var fixed := JsonCompare(Equal, LArray([]), b, matches).value;
    assert fixed[0] == EvalRow(Equal, LArray([]), true, false, JArr([]), JArr([]), matches) == RowResult(true, true);
    assert fixed == [RowResult(true, true)];
  }
}
