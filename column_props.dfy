// Properties of one column of a general block: what the update along U and
// the gather into L write, the values they store, what a halt on a zero
// pivot leaves untouched, and the discipline that keeps the workspace zero.
module ColumnProps {
  import opened KluCommon
  import opened RefactorSpec

  /** i is one of rows[lo .. hi). */
  ghost predicate Among(rows: seq<int>, lo: int, hi: int, i: int)
    requires 0 <= lo <= hi <= |rows|
  {
    exists p :: lo <= p < hi && rows[p] == i
  }

  lemma AmongExtend(rows: seq<int>, lo: int, hi: int)
    requires 0 <= lo < hi <= |rows|
    ensures forall i :: Among(rows, lo, hi, i) <==> Among(rows, lo, hi - 1, i) || rows[hi - 1] == i
  {
    assert Among(rows, lo, hi, rows[hi - 1]);
  }

  // ---------------------------------------------------------------------
  // Where the folds write
  // ---------------------------------------------------------------------

  /** The multiply-subtract along a column of L changes X only at its rows. */
  lemma {:induction false} MultSubWritesRows(x: seq<real>, lub: seq<real>, col: Column, ujk: real, q: nat)
    requires q <= |col.rows| && ColumnFits(col, |x|, |lub|)
    ensures forall i :: 0 <= i < |x| && MultSubUpTo(x, lub, col, ujk, q)[i] != x[i]
              ==> Among(col.rows, 0, q, i)
  {
    if q > 0 {
      MultSubWritesRows(x, lub, col, ujk, q - 1);
    }
  }

  /** The first q steps of the update along U write the block buffer only at
      the first q value slots of column k of U. */
  lemma {:induction false} UUpdateWritesU(c: Ctx, k1: int, nk: int, k: int, w: Work, q: nat)
    requires |c.Lcol| == c.sym.n && |c.Ucol| == c.sym.n && 0 <= k1 && k1 + nk <= c.sym.n
    requires 0 <= k < nk <= |w.x| && BlockFits(c, k1, nk, |w.lub|)
    requires q <= |c.Ucol[k1 + k].rows|
    ensures var ucol := c.Ucol[k1 + k];
      forall i :: 0 <= i < |w.lub| && !(ucol.xOff <= i < ucol.xOff + q)
        ==> UUpdateUpTo(c, k1, nk, k, w, q).lub[i] == w.lub[i]
  {
    if q > 0 {
      UUpdateWritesU(c, k1, nk, k, w, q - 1);
    }
  }

  /** U(j,k) of step p of the update is X[j] as that step read it, and no
      later step overwrites it. */
  lemma {:induction false} UUpdateStoredAt(c: Ctx, k1: int, nk: int, k: int, w: Work, q: nat, p: nat)
    requires |c.Lcol| == c.sym.n && |c.Ucol| == c.sym.n && 0 <= k1 && k1 + nk <= c.sym.n
    requires 0 <= k < nk <= |w.x| && BlockFits(c, k1, nk, |w.lub|)
    requires p < q <= |c.Ucol[k1 + k].rows|
    ensures var ucol := c.Ucol[k1 + k];
      UUpdateUpTo(c, k1, nk, k, w, q).lub[ucol.xOff + p]
      == UUpdateUpTo(c, k1, nk, k, w, p).x[ucol.rows[p]]
  {
    if p < q - 1 {
      UUpdateStoredAt(c, k1, nk, k, w, q - 1, p);
      var ucol := c.Ucol[k1 + k];
      var w1 := UUpdateUpTo(c, k1, nk, k, w, q - 1);
      assert UUpdateUpTo(c, k1, nk, k, w, q).lub[ucol.xOff + p] == w1.lub[ucol.xOff + p];
    }
  }

  /** Each U(j,k) the update stores is X[j] as it stood when its step of the
      update read it. */
  lemma UUpdateStoresU(c: Ctx, k1: int, nk: int, k: int, w: Work, q: nat)
    requires |c.Lcol| == c.sym.n && |c.Ucol| == c.sym.n && 0 <= k1 && k1 + nk <= c.sym.n
    requires 0 <= k < nk <= |w.x| && BlockFits(c, k1, nk, |w.lub|)
    requires q <= |c.Ucol[k1 + k].rows|
    ensures var ucol := c.Ucol[k1 + k];
      forall p :: 0 <= p < q ==>
        UUpdateUpTo(c, k1, nk, k, w, q).lub[ucol.xOff + p]
        == UUpdateUpTo(c, k1, nk, k, w, p).x[ucol.rows[p]]
  {
    forall p | 0 <= p < q
      ensures UUpdateUpTo(c, k1, nk, k, w, q).lub[c.Ucol[k1 + k].xOff + p]
              == UUpdateUpTo(c, k1, nk, k, w, p).x[c.Ucol[k1 + k].rows[p]]
    {
      UUpdateStoredAt(c, k1, nk, k, w, q, p);
    }
  }

  /** The first q steps of the gather clear X at rows[..q] and change nothing
      else of X; the buffer changes only at the first q value slots. */
  lemma {:induction false} GatherClears(w: Work, col: Column, ukk: real, q: nat)
    requires q <= |col.rows| && ColumnFits(col, |w.x|, |w.lub|)
    ensures var g := GatherUpTo(w, col, ukk, q);
      && (forall i :: 0 <= i < |w.x| ==>
            g.x[i] == (if Among(col.rows, 0, q, i) then 0.0 else w.x[i]))
      && (forall i :: 0 <= i < |w.lub| && !(col.xOff <= i < col.xOff + q) ==> g.lub[i] == w.lub[i])
  {
    if q > 0 {
      GatherClears(w, col, ukk, q - 1);
      AmongExtend(col.rows, 0, q);
    }
  }

  /** Rows are pairwise distinct. */
  ghost predicate DistinctRows(rows: seq<int>)
  {
    forall p1, p2 :: 0 <= p1 < p2 < |rows| ==> rows[p1] != rows[p2]
  }

  /** With distinct rows, the gather stores L(i,k) = X[i] / ukk for every row i
      of the column, X[i] taken before the gather. */
  lemma {:induction false} GatherDivides(w: Work, col: Column, ukk: real, q: nat)
    requires q <= |col.rows| && ColumnFits(col, |w.x|, |w.lub|) && DistinctRows(col.rows)
    ensures var g := GatherUpTo(w, col, ukk, q);
      forall p :: 0 <= p < q ==> g.lub[col.xOff + p] == Div(w.x[col.rows[p]], ukk)
  {
    if q > 0 {
      GatherDivides(w, col, ukk, q - 1);
      GatherClears(w, col, ukk, q - 1);
      var g1 := GatherUpTo(w, col, ukk, q - 1);
      var i := col.rows[q - 1];
      assert !Among(col.rows, 0, q - 1, i);
      assert GatherUpTo(w, col, ukk, q).lub == g1.lub[col.xOff + q - 1 := Div(w.x[i], ukk)];
    }
  }

  // ---------------------------------------------------------------------
  // One column
  // ---------------------------------------------------------------------

  /** What gathering column k of block b stores: Udiag at the column is the
      pivot, L(i,k) = X[i] / ukk for each row i of L's pattern, X cleared at
      those rows; every other slot of the block buffer, every other block
      and every other diagonal entry is unchanged. */
  lemma GatherColumnStores(c: GoodCtx, st: RState, b: int, k: int, ukk: real)
    requires StateOk(c, st)
    requires 0 <= b < c.sym.nblocks && 0 <= k < c.sym.R[b + 1] - c.sym.R[b]
    requires DistinctRows(c.Lcol[c.sym.R[b] + k].rows)
    ensures var st' := GatherColumn(c, st, b, k, ukk);
      var col := c.Lcol[c.sym.R[b] + k];
      && st'.udiag == st.udiag[c.sym.R[b] + k := ukk]
      && (forall p :: 0 <= p < |col.rows| ==> st'.lu[b][col.xOff + p] == Div(st.x[col.rows[p]], ukk))
      && (forall i :: 0 <= i < |st.lu[b]| && !(col.xOff <= i < col.xOff + |col.rows|)
            ==> st'.lu[b][i] == st.lu[b][i])
      && (forall b' :: 0 <= b' < |st.lu| && b' != b ==> st'.lu[b'] == st.lu[b'])
      && (forall i :: 0 <= i < |st.x| ==>
            st'.x[i] == (if Among(col.rows, 0, |col.rows|, i) then 0.0 else st.x[i]))
  {
    var col := c.Lcol[c.sym.R[b] + k];
    assert ColumnFits(col, c.sym.R[b + 1] - c.sym.R[b], c.lens[b]);
    GatherClears(Work(st.x, st.lu[b]), col, ukk, |col.rows|);
    GatherDivides(Work(st.x, st.lu[b]), col, ukk, |col.rows|);
  }

  /** A column that stops the run on a zero pivot: the pivot was zero and the
      policy is to halt; the diagonal of U is left as it was, and of the
      block buffers only the values of column k of U were written, so the
      column's L and every other block are untouched. */
  lemma HaltLeavesColumn(c: GoodCtx, st: RState, b: int, k: int)
    requires StateOk(c, st) && st.halt == Running
    requires 0 <= b < c.sym.nblocks && 0 <= k < c.sym.R[b + 1] - c.sym.R[b]
    requires FactorColumn(c, st, b, k).halt == HaltedSingular
    ensures var st' := FactorColumn(c, st, b, k);
      var ucol := c.Ucol[c.sym.R[b] + k];
      && c.halt && st'.status == KLU_SINGULAR
      && st'.udiag == st.udiag
      && (forall i :: 0 <= i < |st.lu[b]| && !(ucol.xOff <= i < ucol.xOff + |ucol.rows|)
            ==> st'.lu[b][i] == st.lu[b][i])
      && (forall b' :: 0 <= b' < |st.lu| && b' != b ==> st'.lu[b'] == st.lu[b'])
  {
    var r := ScatterOf(c, st, b, k);
    var k1 := c.sym.R[b];
    UUpdateWritesU(c, k1, c.sym.R[b + 1] - k1, k, Work(r.x, st.lu[b]), |c.Ucol[k1 + k].rows|);
  }

  // ---------------------------------------------------------------------
  // The workspace stays zero
  // ---------------------------------------------------------------------

  /** X is zero below m. */
  ghost predicate ZeroBelow(x: seq<real>, m: int)
  {
    forall i :: 0 <= i < m && i < |x| ==> x[i] == 0.0
  }

  /** Slot i may still be read by the rest of column k: it is a row of U's
      pattern from position q on, the pivot row k, or a row of L. */
  ghost predicate Pending(ucol: Column, k: int, lcol: Column, q: int, i: int)
    requires 0 <= q <= |ucol.rows|
  {
    Among(ucol.rows, q, |ucol.rows|, i) || i == k || Among(lcol.rows, 0, |lcol.rows|, i)
  }

  /** Every nonzero slot of X below m is pending from position q of U's
      pattern on. */
  ghost predicate NonzeroPending(x: seq<real>, m: int, ucol: Column, k: int, lcol: Column, q: int)
    requires 0 <= q <= |ucol.rows|
  {
    forall i :: 0 <= i < m && i < |x| && x[i] != 0.0 ==> Pending(ucol, k, lcol, q, i)
  }

  /** The pattern of column k of the block at k1 is closed under the
      elimination: for each row j of U's pattern, the rows of column j of L
      are among the later rows of U, the pivot row, or the rows of L. */
  ghost predicate ClosedUnderUpdate(c: Ctx, k1: int, nk: int, k: int)
    requires |c.Lcol| == c.sym.n && |c.Ucol| == c.sym.n && 0 <= k1 && k1 + nk <= c.sym.n
    requires 0 <= k < nk
  {
    var ucol := c.Ucol[k1 + k];
    forall u :: 0 <= u < |ucol.rows| ==>
      && 0 <= ucol.rows[u] < nk
      && ClosedStep(ucol, k, c.Lcol[k1 + k], u, c.Lcol[k1 + ucol.rows[u]])
  }

  /** The rows of lc are pending after position u of U's pattern. */
  ghost predicate ClosedStep(ucol: Column, k: int, lcol: Column, u: int, lc: Column)
    requires 0 <= u < |ucol.rows|
  {
    forall p :: 0 <= p < |lc.rows| ==> Pending(ucol, k, lcol, u + 1, lc.rows[p])
  }

  /** The scatter of entries p0 .. q-1 changes X only at the in-block rows of
      those entries. */
  lemma {:induction false} ScatterWritesRows(c: GoodCtx, k1: int, r: Routed, p0: int, q: int)
    requires RoutedOk(c, r) && 0 <= k1
    requires c.Ap[0] <= p0 <= q <= c.Ap[c.sym.n]
    ensures forall i :: 0 <= i < |r.x| && ScatterUpTo(c, k1, r, p0, q).x[i] != r.x[i] ==>
              exists p :: p0 <= p < q && NewRow(c, k1, p) == i
    decreases q - p0
  {
    if q > p0 {
      ScatterWritesRows(c, k1, r, p0, q - 1);
    }
  }

  /** Step q of the update along U's pattern: row j = rows[q-1] is cleared,
      then the update along a column lc of L whose rows are pending writes
      only pending slots. */
  lemma UpdateStepPending(x: seq<real>, lub: seq<real>, ucol: Column, k: int, lcol: Column, q: int,
                          lc: Column, ujk: real, m: int)
    requires 0 < q <= |ucol.rows| && 0 <= ucol.rows[q - 1] < |x| && ColumnFits(lc, |x|, |lub|)
    requires NonzeroPending(x, m, ucol, k, lcol, q - 1)
    requires ClosedStep(ucol, k, lcol, q - 1, lc)
    ensures NonzeroPending(MultSubUpTo(x[ucol.rows[q - 1] := 0.0], lub, lc, ujk, |lc.rows|), m,
                           ucol, k, lcol, q)
  {
    MultSubWritesRows(x[ucol.rows[q - 1] := 0.0], lub, lc, ujk, |lc.rows|);
  }

  /** Along U's pattern each row j is cleared as it is read, and the update
      along column j of L writes only slots still pending. */
  lemma {:induction false} UpdateKeepsPending(c: Ctx, k1: int, nk: int, k: int, w: Work, q: nat, m: int)
    requires |c.Lcol| == c.sym.n && |c.Ucol| == c.sym.n && 0 <= k1 && k1 + nk <= c.sym.n
    requires 0 <= k < nk <= |w.x| && BlockFits(c, k1, nk, |w.lub|)
    requires q <= |c.Ucol[k1 + k].rows| && ClosedUnderUpdate(c, k1, nk, k)
    requires NonzeroPending(w.x, m, c.Ucol[k1 + k], k, c.Lcol[k1 + k], 0)
    ensures NonzeroPending(UUpdateUpTo(c, k1, nk, k, w, q).x, m, c.Ucol[k1 + k], k, c.Lcol[k1 + k], q)
  {
    if q > 0 {
      UpdateKeepsPending(c, k1, nk, k, w, q - 1, m);
      var ucol := c.Ucol[k1 + k];
      var w1 := UUpdateUpTo(c, k1, nk, k, w, q - 1);
      var j := ucol.rows[q - 1];
      var lc := c.Lcol[k1 + j];
      var lub1 := w1.lub[ucol.xOff + q - 1 := w1.x[j]];
      assert ColumnFits(lc, nk, |w.lub|);
      UpdateStepPending(w1.x, lub1, ucol, k, c.Lcol[k1 + k], q, lc, w1.x[j], m);
      assert UUpdateUpTo(c, k1, nk, k, w, q).x == MultSubUpTo(w1.x[j := 0.0], lub1, lc, w1.x[j], |lc.rows|);
    }
  }

  /** The in-block rows of the entries of column k of block b lie in the
      column's pattern: U's rows, the pivot row and L's rows. */
  ghost predicate ScatterInPattern(c: GoodCtx, b: int, k: int)
    requires 0 <= b < c.sym.nblocks && 0 <= k < c.sym.R[b + 1] - c.sym.R[b]
  {
    var k1 := c.sym.R[b];
    var oldcol := c.sym.Q[k1 + k];
    forall p :: c.Ap[oldcol] <= p < c.Ap[oldcol + 1] && NewRow(c, k1, p) >= 0 ==>
      Pending(c.Ucol[k1 + k], k, c.Lcol[k1 + k], 0, NewRow(c, k1, p))
  }

  /** Every column of every general block has its entries in its pattern and
      a pattern closed under the elimination, as a symbolic analysis of the
      matrix provides. */
  ghost predicate PatternClosed(c: GoodCtx)
  {
    forall b, k :: 0 <= b < c.sym.nblocks && 0 <= k < c.sym.R[b + 1] - c.sym.R[b] != 1 ==>
      ScatterInPattern(c, b, k) && ClosedUnderUpdate(c, c.sym.R[b], c.sym.R[b + 1] - c.sym.R[b], k)
  }

  /** Every nonzero slot of X below m is a row of lcol. */
  ghost predicate NonzeroInL(x: seq<real>, m: int, lcol: Column)
  {
    forall i :: 0 <= i < m && i < |x| && x[i] != 0.0 ==> Among(lcol.rows, 0, |lcol.rows|, i)
  }

  /** Once U's pattern is done and the pivot slot k cleared, the nonzero
      slots are rows of L. */
  lemma PendingAtPivot(x: seq<real>, m: int, ucol: Column, k: int, lcol: Column)
    requires 0 <= k < |x| && NonzeroPending(x, m, ucol, k, lcol, |ucol.rows|)
    ensures NonzeroInL(x[k := 0.0], m, lcol)
  {
  }

  /** Finishing a column whose nonzero workspace slots below maxblock are
      rows of L leaves the workspace zero below maxblock, unless the run
      stops at the pivot. */
  lemma FinishClearsX(c: GoodCtx, st: RState, b: int, k: int, ukk: real)
    requires StateOk(c, st)
    requires 0 <= b < c.sym.nblocks && 0 <= k < c.sym.R[b + 1] - c.sym.R[b]
    requires NonzeroInL(st.x, c.sym.maxblock, c.Lcol[c.sym.R[b] + k])
    ensures FinishColumn(c, st, b, k, ukk).halt == Running ==>
              ZeroBelow(FinishColumn(c, st, b, k, ukk).x, c.sym.maxblock)
  {
    var lcol := c.Lcol[c.sym.R[b] + k];
    var st1 := Pivot(c, st, c.sym.R[b] + k, ukk);
    if st1.halt == Running {
      assert ColumnFits(lcol, c.sym.R[b + 1] - c.sym.R[b], c.lens[b]);
      GatherClears(Work(st1.x, st1.lu[b]), lcol, ukk, |lcol.rows|);
      assert FinishColumn(c, st, b, k, ukk).x == GatherUpTo(Work(st1.x, st1.lu[b]), lcol, ukk, |lcol.rows|).x;
    }
  }

  /** The scatter of a column whose entries lie in its pattern, into X zero
      below maxblock, leaves only pending slots nonzero. */
  lemma ScatterPending(c: GoodCtx, st: RState, b: int, k: int)
    requires StateOk(c, st)
    requires 0 <= b < c.sym.nblocks && 0 <= k < c.sym.R[b + 1] - c.sym.R[b]
    requires ScatterInPattern(c, b, k) && ZeroBelow(st.x, c.sym.maxblock)
    ensures NonzeroPending(ScatterOf(c, st, b, k).x, c.sym.maxblock,
                           c.Ucol[c.sym.R[b] + k], k, c.Lcol[c.sym.R[b] + k], 0)
  {
    var oldcol := c.sym.Q[c.sym.R[b] + k];
    ScatterWritesRows(c, c.sym.R[b], Routed(st.x, st.offx, st.poff, false),
                      c.Ap[oldcol], c.Ap[oldcol + 1]);
  }

  /** After the update along U of a scattered column whose nonzero slots
      are pending, and the clearing of the pivot slot, the nonzero slots are
      rows of L. */
  lemma UpdatePending(c: GoodCtx, st: RState, b: int, k: int, r: Routed)
    requires StateOk(c, st) && RoutedOk(c, r) && |r.x| == |st.x|
    requires 0 <= b < c.sym.nblocks && 0 <= k < c.sym.R[b + 1] - c.sym.R[b]
    requires ClosedUnderUpdate(c, c.sym.R[b], c.sym.R[b + 1] - c.sym.R[b], k)
    requires NonzeroPending(r.x, c.sym.maxblock, c.Ucol[c.sym.R[b] + k], k, c.Lcol[c.sym.R[b] + k], 0)
    ensures NonzeroInL(UpdateOf(c, st, b, k, r).x[k := 0.0], c.sym.maxblock, c.Lcol[c.sym.R[b] + k])
  {
    var k1 := c.sym.R[b];
    var ucol := c.Ucol[k1 + k];
    UpdateKeepsPending(c, k1, c.sym.R[b + 1] - k1, k, Work(r.x, st.lu[b]), |ucol.rows|, c.sym.maxblock);
    PendingAtPivot(UpdateOf(c, st, b, k, r).x, c.sym.maxblock, ucol, k, c.Lcol[k1 + k]);
  }

  /** A column of a general block whose pattern is closed, started with X
      zero below maxblock, leaves X zero below maxblock unless it stops the
      run. */
  lemma ColumnClearsX(c: GoodCtx, st: RState, b: int, k: int)
    requires StateOk(c, st) && st.halt == Running
    requires 0 <= b < c.sym.nblocks && 0 <= k < c.sym.R[b + 1] - c.sym.R[b]
    requires ScatterInPattern(c, b, k)
    requires ClosedUnderUpdate(c, c.sym.R[b], c.sym.R[b + 1] - c.sym.R[b], k)
    requires ZeroBelow(st.x, c.sym.maxblock)
    ensures FactorColumn(c, st, b, k).halt == Running ==>
              ZeroBelow(FactorColumn(c, st, b, k).x, c.sym.maxblock)
  {
    var k1 := c.sym.R[b];
    var nk := c.sym.R[b + 1] - k1;
    var m := c.sym.maxblock;
    var ucol := c.Ucol[k1 + k];
    var lcol := c.Lcol[k1 + k];
    var oldcol := c.sym.Q[k1 + k];
    var r := ScatterOf(c, st, b, k);
    if !r.fault {
      ScatterPending(c, st, b, k);
      UpdatePending(c, st, b, k, r);
      var w := UpdateOf(c, st, b, k, r);
      var st0 := st.(x := w.x[k := 0.0], offx := r.offx, poff := r.poff, lu := st.lu[b := w.lub]);
      FinishClearsX(c, st0, b, k, w.x[k]);
    }
  }

  lemma {:induction false} ColumnsClearX(c: GoodCtx, st: RState, b: int, q: nat)
    requires StateOk(c, st) && PatternClosed(c)
    requires 0 <= b < c.sym.nblocks && q <= c.sym.R[b + 1] - c.sym.R[b] != 1
    requires st.halt == Running ==> ZeroBelow(st.x, c.sym.maxblock)
    ensures ColumnsUpTo(c, st, b, q).halt == Running ==>
              ZeroBelow(ColumnsUpTo(c, st, b, q).x, c.sym.maxblock)
  {
    if q > 0 {
      ColumnsClearX(c, st, b, q - 1);
      var st1 := ColumnsUpTo(c, st, b, q - 1);
      if st1.halt == Running {
        ColumnClearsX(c, st1, b, q - 1);
      }
    }
  }

  lemma {:induction false} BlocksClearX(c: GoodCtx, st: RState, q: nat)
    requires StateOk(c, st) && PatternClosed(c) && q <= c.sym.nblocks
    requires st.halt == Running ==> ZeroBelow(st.x, c.sym.maxblock)
    ensures BlocksUpTo(c, st, q).halt == Running ==>
              ZeroBelow(BlocksUpTo(c, st, q).x, c.sym.maxblock)
  {
    if q > 0 {
      BlocksClearX(c, st, q - 1);
      var st1 := BlocksUpTo(c, st, q - 1);
      if c.sym.R[q] - c.sym.R[q - 1] != 1 {
        ColumnsClearX(c, st1, q - 1, c.sym.R[q] - c.sym.R[q - 1]);
      }
    }
  }

  /** The workspace discipline of the whole run: X[0 .. maxblock) is zeroed
      before the first block, and when every column's pattern is closed
      under the elimination, a run that completes leaves it zero again. */
  lemma WorkspaceClearAfterRun(c: GoodCtx, x: seq<real>, offx: seq<real>, udiag: seq<real>,
                               lu: seq<seq<real>>)
    requires StateOk(c, StartState(c, x, offx, udiag, lu)) && PatternClosed(c)
    ensures ZeroBelow(StartState(c, x, offx, udiag, lu).x, c.sym.maxblock)
    ensures var fin := BlocksUpTo(c, StartState(c, x, offx, udiag, lu), c.sym.nblocks);
      fin.halt == Running ==> ZeroBelow(fin.x, c.sym.maxblock)
  {
    BlocksClearX(c, StartState(c, x, offx, udiag, lu), c.sym.nblocks);
  }
}
