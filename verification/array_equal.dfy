/**
 * Equal / NotEqual of an array field against an array literal, served by the scalar index on
 * the array's elements: collect the literal's distinct elements, narrow the candidate rows to
 * those the index reports for every element (stopping early once few enough remain), then
 * compare each candidate row with the literal.
 */
module ArrayEqualIndex {
  import opened SeqUtil

  /** The scalar index's in-filter for one element: the rows whose array contains it. */
  function RowsContaining<E(==)>(rows: seq<seq<E>>, e: E): (s: set<int>)
    ensures forall r :: r in s <==> 0 <= r < |rows| && e in rows[r]
  {
    set r | 0 <= r < |rows| && e in rows[r]
  }

  /** A row that contains every element. */
  predicate ContainsAll<E(==)>(row: seq<E>, elems: seq<E>) {
    forall k :: 0 <= k < |elems| ==> elems[k] in row
  }

  /**
   * The candidate loop: the first element's rows, intersected with each further element's rows
   * until fewer than one row in a hundred remains. Every row that contains all the elements
   * survives, and every candidate contains the first element.
   */
  method Candidates<E(==)>(rows: seq<seq<E>>, elems: seq<E>) returns (cands: set<int>)
    requires |elems| > 0
    ensures forall r :: r in cands ==> 0 <= r < |rows| && elems[0] in rows[r]
    ensures forall r :: 0 <= r < |rows| && ContainsAll(rows[r], elems) ==> r in cands
  {
    cands := RowsContaining(rows, elems[0]);
    forall r | r in cands ensures 0 <= r < |rows| && elems[0] in rows[r] {
      assert r in RowsContaining(rows, elems[0]);
    }
    if |cands| * 100 < |rows| {
      return;
    }
    var idx := 1;
    while idx < |elems|
      invariant 1 <= idx <= |elems|
      invariant forall r :: r in cands ==> 0 <= r < |rows| && elems[0] in rows[r]
      invariant forall r :: 0 <= r < |rows| && ContainsAll(rows[r], elems) ==> r in cands
    {
      cands := set r | r in cands && r in RowsContaining(rows, elems[idx]);
      if |cands| * 100 < |rows| {
        return;
      }
      idx := idx + 1;
    }
  }

  /** What the index path answers: fall back to the brute-force scan, or a bitmap over the rows. */
  datatype Outcome = BruteForce | Bitmap(bits: seq<bool>)

  /** The post-filter as written: only candidates are compared; every other row stays false. */
  function PostFilterAsWritten<E(==)>(rows: seq<seq<E>>, val: seq<E>, cands: set<int>, reverse: bool): (bits: seq<bool>)
    ensures |bits| == |rows|
    ensures forall i :: 0 <= i < |rows| ==> bits[i] == (i in cands && ((rows[i] == val) != reverse))
  {
    seq(|rows|, i requires 0 <= i < |rows| => if i in cands then (rows[i] == val) != reverse else false)
  }

  /** The post-filter with non-candidates answered too: a row that is not a candidate differs from the literal. */
  function PostFilter<E(==)>(rows: seq<seq<E>>, val: seq<E>, cands: set<int>, reverse: bool): (bits: seq<bool>)
    ensures |bits| == |rows|
    ensures forall i :: 0 <= i < |rows| ==> bits[i] == (if i in cands then (rows[i] == val) != reverse else reverse)
  {
    seq(|rows|, i requires 0 <= i < |rows| => if i in cands then (rows[i] == val) != reverse else reverse)
  }

  /** `ExecArrayEqualForIndex` as written. Equal is exact; NotEqual only ever reports candidate rows. */
  method ExecArrayEqualForIndexAsWritten<E(==)>(rows: seq<seq<E>>, val: seq<E>, reverse: bool)
    returns (r: Outcome)
    ensures |val| == 0 <==> r == BruteForce
    ensures r.Bitmap? ==> |r.bits| == |rows|
    ensures r.Bitmap? && !reverse ==> forall i :: 0 <= i < |rows| ==> r.bits[i] == (rows[i] == val)
    ensures r.Bitmap? && reverse ==> forall i :: 0 <= i < |rows| && r.bits[i] ==>
      rows[i] != val && exists k :: 0 <= k < |val| && val[k] in rows[i]
  {
    if |val| == 0 {
      return BruteForce;
    }
    var elems := RemoveDuplicates(val);
    var cands := Candidates(rows, elems);
    forall i | 0 <= i < |rows| && rows[i] == val ensures i in cands {
      assert ContainsAll(rows[i], elems);
    }
    r := Bitmap(PostFilterAsWritten(rows, val, cands, reverse));
  }

  /**
   * A NotEqual the as-written post-filter gets wrong: the row `[2]` differs from the literal `[1]`,
   * but it is not a candidate (it lacks 1), so its bit stays false.
   */
  lemma NotEqualMissesNonCandidates(cands: set<int>)
    requires cands <= RowsContaining([[2]], 1)
    ensures [2] != [1]
    ensures PostFilterAsWritten([[2]], [1], cands, true) == [false]
    ensures PostFilter([[2]], [1], cands, true) == [true]
  {
    var rows := [[2]];
    assert rows[0] == [2] && 1 !in rows[0];
    assert 0 !in RowsContaining(rows, 1);
  }

  /** `ExecArrayEqualForIndex` with non-candidate rows answered: every bit is exactly `(row == literal) != reverse`. */
  method ExecArrayEqualForIndex<E(==)>(rows: seq<seq<E>>, val: seq<E>, reverse: bool)
    returns (r: Outcome)
    ensures |val| == 0 <==> r == BruteForce
    ensures r.Bitmap? ==> |r.bits| == |rows| && forall i :: 0 <= i < |rows| ==> r.bits[i] == ((rows[i] == val) != reverse)
  {
    if |val| == 0 {
      return BruteForce;
    }
    var elems := RemoveDuplicates(val);
    var cands := Candidates(rows, elems);
    forall i | 0 <= i < |rows| && rows[i] == val ensures i in cands {
      assert ContainsAll(rows[i], elems);
    }
    r := Bitmap(PostFilter(rows, val, cands, reverse));
  }
}
