// The update along U in the branch with row scaling reads the values of
// column j of L from the start of the block buffer instead of from the
// column's own offset (DZklu_refactor.java:438; the branch without scaling
// reads them at the offset, DZklu_refactor.java:283). This module models the
// read as written, shows an input where it departs from the update the
// branch without scaling performs, and proves of the update the model uses in
// both branches that it subtracts exactly column j of L.
module ScaledUpdate {
  import opened KluCommon
  import opened RefactorSpec
  import opened ColumnProps

  // ---------------------------------------------------------------------
  // The read as written
  // ---------------------------------------------------------------------

  /** The first q updates X[rows[p]] -= Lx[p] * ujk as the scaled branch
      performs them: Lx[p] is read at slot p of the block buffer, whatever
      the column's offset. */
  function MultSubUpToAsWritten(x: seq<real>, lub: seq<real>, col: Column, ujk: real, q: nat): (y: seq<real>)
    requires q <= |col.rows| && ColumnFits(col, |x|, |lub|)
    ensures |y| == |x|
  {
    if q == 0 then x
    else
      var y := MultSubUpToAsWritten(x, lub, col, ujk, q - 1);
      var i := col.rows[q - 1];
      y[i := MultSub(y[i], lub[q - 1], ujk)]
  }

  /** For a column whose values start at offset 0 of the block buffer the
      read as written is harmless: both reads agree. */
  lemma {:induction false} AsWrittenAgreesAtOffsetZero(x: seq<real>, lub: seq<real>, col: Column, ujk: real, q: nat)
    requires q <= |col.rows| && ColumnFits(col, |x|, |lub|) && col.xOff == 0
    ensures MultSubUpToAsWritten(x, lub, col, ujk, q) == MultSubUpTo(x, lub, col, ujk, q)
  {
    if q > 0 {
      AsWrittenAgreesAtOffsetZero(x, lub, col, ujk, q - 1);
    }
  }

  /** A column of L with one row, 1, whose value 5 sits at offset 1 of the
      buffer [0, 5], updated with ujk = 1 from X = [0, 0]: the update along
      the column's offset yields X[1] = -5, the read as written leaves
      X[1] = 0. */
  lemma AsWrittenDiverges()
    ensures var col := Column([1], 1);
      && ColumnFits(col, 2, 2)
      && MultSubUpTo([0.0, 0.0], [0.0, 5.0], col, 1.0, 1) == [0.0, -5.0]
      && MultSubUpToAsWritten([0.0, 0.0], [0.0, 5.0], col, 1.0, 1) == [0.0, 0.0]
  {
    var col := Column([1], 1);
    assert MultSubUpTo([0.0, 0.0], [0.0, 5.0], col, 1.0, 1)
        == [0.0, 0.0][1 := MultSub(0.0, 5.0, 1.0)];
    assert MultSubUpToAsWritten([0.0, 0.0], [0.0, 5.0], col, 1.0, 1)
        == [0.0, 0.0][1 := MultSub(0.0, 0.0, 1.0)];
  }

  // ---------------------------------------------------------------------
  // The corrected read
  // ---------------------------------------------------------------------

  /** The update both branches are meant to perform: after the first q steps
      each row rows[p] of column j of L (rows distinct) holds
      X[rows[p]] - L(rows[p], j) * ujk, with L(rows[p], j) the value at the
      column's own offset plus p, and every other row of X is unchanged. */
  lemma {:induction false} MultSubSubtractsColumn(x: seq<real>, lub: seq<real>, col: Column, ujk: real, q: nat)
    requires q <= |col.rows| && ColumnFits(col, |x|, |lub|) && DistinctRows(col.rows)
    ensures var y := MultSubUpTo(x, lub, col, ujk, q);
      && (forall p :: 0 <= p < q ==> y[col.rows[p]] == MultSub(x[col.rows[p]], lub[col.xOff + p], ujk))
      && (forall i :: 0 <= i < |x| && !Among(col.rows, 0, q, i) ==> y[i] == x[i])
  {
    MultSubWritesRows(x, lub, col, ujk, q);
    if q > 0 {
      MultSubSubtractsColumn(x, lub, col, ujk, q - 1);
      var i := col.rows[q - 1];
      assert !Among(col.rows, 0, q - 1, i);
    }
  }
}
